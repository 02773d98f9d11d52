/**
 The validators that compare a count with the `min` and `max` options:
 `stringLength`, on the length of the trimmed input, and `choice`, on the
 number of checked boxes or selected options of a field.
 */
module Counts {
  import opened Chars

  /**
   The bound test both validators share.  A bound is given as a natural
   number, `0` when the option is not set: `0` is falsy, so a bound of zero
   is ignored just as a missing one is.
   */
  predicate Within(n: nat, min: nat, max: nat) {
    !((min > 0 && n < min) || (max > 0 && n > max))
  }

  // ----- stringLength -----

  /**
   The `length` of a JavaScript string: it counts UTF-16 code units, so a
   character outside the Basic Multilingual Plane counts twice.
   */
  function Utf16Len(s: string): (n: nat)
    ensures |s| <= n <= 2 * |s|
  {
    if s == [] then 0
    else Utf16Len(s[..|s| - 1]) + (if s[|s| - 1] as int > 0xFFFF then 2 else 1)
  }

  predicate InBmp(s: string) {
    forall i :: 0 <= i < |s| ==> s[i] as int <= 0xFFFF
  }

  /** The code-unit length of a concatenation is the sum of the parts' lengths. */
  lemma {:induction false} Utf16LenConcat(a: string, b: string)
    ensures Utf16Len(a + b) == Utf16Len(a) + Utf16Len(b)
    decreases |b|
  {
    if b == [] {
      assert a + b == a;
    } else {
      var c := a + b;
      assert c[..|c| - 1] == a + b[..|b| - 1];
      assert c[|c| - 1] == b[|b| - 1];
      Utf16LenConcat(a, b[..|b| - 1]);
    }
  }

  /** The code-unit length equals the number of characters exactly when no
      character lies outside the Basic Multilingual Plane. */
  lemma {:induction false} Utf16LenIsLength(s: string)
    ensures Utf16Len(s) == |s| <==> InBmp(s)
  {
    if s != [] {
      var p := s[..|s| - 1];
      Utf16LenIsLength(p);
      if InBmp(s) {
        assert InBmp(p) by {
          forall i | 0 <= i < |p| ensures p[i] as int <= 0xFFFF {
            assert p[i] == s[i];
          }
        }
      } else if InBmp(p) {
        assert s[|s| - 1] as int > 0xFFFF by {
          forall i | 0 <= i < |s| - 1 ensures s[i] as int <= 0xFFFF {
            assert s[i] == p[i];
          }
        }
      }
    }
  }

  /** The `stringLength` validator: the empty input passes; otherwise the
      length after `$.trim`, in UTF-16 code units, must respect the bounds. */
  predicate StringLengthValid(value: string, min: nat, max: nat) {
    value == [] || Within(Utf16Len(Trim(value)), min, max)
  }

  /** One emoji is two code units long, so `max: 1` rejects it. */
  lemma AstralCountsTwice()
    ensures !StringLengthValid("\U{1F600}", 0, 1)
    ensures StringLengthValid("\U{1F600}", 0, 2)
  {
    var e := "\U{1F600}";
    assert !IsSpace(e[0]);
    assert Trim(e) == e;
    assert Utf16Len(e) == 2 by {
      assert e[..0] == [];
    }
  }

  predicate AllSpace(s: string) {
    forall i :: 0 <= i < |s| ==> IsSpace(s[i])
  }

  /** White space in front is dropped by `TrimStart`. */
  lemma {:induction false} TrimStartSpaces(p: string, w: string)
    requires AllSpace(p)
    ensures TrimStart(p + w) == TrimStart(w)
  {
    if p != [] {
      var s := p + w;
      assert s[0] == p[0] && IsSpace(s[0]);
      assert s[1..] == p[1..] + w;
      assert TrimStart(s) == TrimStart(s[1..]);
      TrimStartSpaces(p[1..], w);
    } else {
      assert p + w == w;
    }
  }

  /** White space behind is dropped by `TrimEnd`. */
  lemma {:induction false} TrimEndSpaces(w: string, q: string)
    requires AllSpace(q)
    ensures TrimEnd(w + q) == TrimEnd(w)
  {
    if q != [] {
      var s := w + q;
      assert s[|s| - 1] == q[|q| - 1] && IsSpace(s[|s| - 1]);
      assert s[..|s| - 1] == w + q[..|q| - 1];
      assert TrimEnd(s) == TrimEnd(s[..|s| - 1]);
      TrimEndSpaces(w, q[..|q| - 1]);
    } else {
      assert w + q == w;
    }
  }

  /** A string whose ends are not white space is what trimming it padded gives back. */
  lemma TrimPadded(p: string, v: string, q: string)
    requires AllSpace(p) && AllSpace(q)
    requires v != [] ==> !IsSpace(v[0]) && !IsSpace(v[|v| - 1])
    ensures Trim(p + v + q) == v
  {
    assert p + v + q == p + (v + q);
    TrimStartSpaces(p, v + q);
    if v == [] {
      assert v + q == q + [];
      TrimStartSpaces(q, []);
    } else {
      assert TrimStart(v + q) == v + q;
      TrimEndSpaces(v, q);
    }
  }

  /** White space around a non-empty input does not change the verdict. */
  lemma PaddingIgnored(p: string, v: string, q: string, min: nat, max: nat)
    requires AllSpace(p) && AllSpace(q)
    requires v != [] && !IsSpace(v[0]) && !IsSpace(v[|v| - 1])
    ensures StringLengthValid(p + v + q, min, max) <==> StringLengthValid(v, min, max)
    ensures StringLengthValid(p + v + q, min, max) <==> Within(Utf16Len(v), min, max)
    ensures InBmp(v) ==> (StringLengthValid(p + v + q, min, max) <==> Within(|v|, min, max))
  {
    Utf16LenIsLength(v);
    TrimPadded(p, v, q);
    TrimPadded([], v, []);
    assert [] + v + [] == v;
  }

  /** An input of white space only has trimmed length zero, so any `min` rejects it. */
  lemma BlankRejectedByMin(s: string, min: nat, max: nat)
    requires s != [] && AllSpace(s) && min > 0
    ensures !StringLengthValid(s, min, max)
  {
    TrimPadded(s, [], []);
    assert s + [] + [] == s;
  }

  // ----- choice -----

  /** The number of checked (or selected) elements. */
  function Count(checked: seq<bool>): (n: nat)
    ensures n <= |checked|
  {
    if checked == [] then 0 else Count(checked[..|checked| - 1]) + (if checked[|checked| - 1] then 1 else 0)
  }

  /** The positions of the checked elements. */
  function Checked(checked: seq<bool>): set<nat> {
    set i: nat | i < |checked| && checked[i]
  }

  /** The count is the number of checked positions. */
  lemma {:induction false} CountIsCardinality(checked: seq<bool>)
    ensures Count(checked) == |Checked(checked)|
  {
    if checked != [] {
      var k := |checked| - 1;
      var p := checked[..k];
      CountIsCardinality(p);
      if checked[k] {
        assert Checked(checked) == Checked(p) + {k};
        assert k !in Checked(p);
      } else {
        assert Checked(checked) == Checked(p);
      }
    }
  }

  /** The `choice` validator over the checked states of the field's elements. */
  predicate ChoiceValid(checked: seq<bool>, min: nat, max: nat) {
    Within(Count(checked), min, max)
  }

  /** `choice`, counting the checked elements in a loop. */
  method ChoiceCheck(checked: seq<bool>, min: nat, max: nat) returns (ok: bool, count: nat)
    ensures count == |Checked(checked)|
    ensures ok <==> ((min == 0 || count >= min) && (max == 0 || count <= max))
    ensures ok <==> ChoiceValid(checked, min, max)
  {
    count := 0;
    var i := 0;
    while i < |checked|
      invariant 0 <= i <= |checked|
      invariant count == Count(checked[..i])
    {
      assert checked[..i + 1][..i] == checked[..i];
      if checked[i] {
        count := count + 1;
      }
      i := i + 1;
    }
    assert checked[..|checked|] == checked;
    CountIsCardinality(checked);
    ok := !((min > 0 && count < min) || (max > 0 && count > max));
  }

  /** Checking one more box adds exactly one to the count. */
  lemma CheckOneMore(checked: seq<bool>, i: nat)
    requires i < |checked| && !checked[i]
    ensures Count(checked[i := true]) == Count(checked) + 1
  {
    CountIsCardinality(checked);
    CountIsCardinality(checked[i := true]);
    assert Checked(checked[i := true]) == Checked(checked) + {i};
  }
}
