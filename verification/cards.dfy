/**
 The `creditCard` and `cvv` validators: a card number is identified by a
 prefix of its digits (its IIN range) together with its length, from one
 table of card types.
 */
module Cards {
  import opened Chars
  import Luhn

  /** The card types, in the order the table lists them. */
  datatype CardType =
    | AmericanExpress | DinersClub | DinersClubUs | Discover | Jcb | Laser
    | Maestro | Mastercard | Solo | UnionPay | Visa

  const Types: seq<CardType> :=
    [AmericanExpress, DinersClub, DinersClubUs, Discover, Jcb, Laser, Maestro, Mastercard, Solo, UnionPay, Visa]

  /** The lengths a card number of the type may have. */
  function Lengths(t: CardType): seq<nat> {
    match t
    case AmericanExpress => [15]
    case DinersClub => [14]
    case DinersClubUs => [16]
    case Discover => [16]
    case Jcb => [16]
    case Laser => [16, 17, 18, 19]
    case Maestro => [12, 13, 14, 15, 16, 17, 18, 19]
    case Mastercard => [16]
    case Solo => [16, 18, 19]
    case UnionPay => [16, 17, 18, 19]
    case Visa => [16]
  }

  /** The China UnionPay ranges, which Discover also lists. */
  const UnionPayPrefixes: seq<string> :=
    ["622126", "622127", "622128", "622129", "62213", "62214", "62215", "62216", "62217", "62218", "62219",
     "6222", "6223", "6224", "6225", "6226", "6227", "6228", "62290", "62291",
     "622920", "622921", "622922", "622923", "622924", "622925"]

  const JcbPrefixes: seq<string> := ["3528", "3529", "353", "354", "355", "356", "357", "358"]

  /** The prefixes a card number of the type may start with. */
  function Prefixes(t: CardType): seq<string> {
    match t
    case AmericanExpress => ["34", "37"]
    case DinersClub => ["300", "301", "302", "303", "304", "305", "36"]
    case DinersClubUs => ["54", "55"]
    case Discover => ["6011"] + UnionPayPrefixes + ["644", "645", "646", "647", "648", "649", "65"]
    case Jcb => JcbPrefixes
    case Laser => JcbPrefixes
    case Maestro => ["5018", "5020", "5038", "6304", "6759", "6761", "6762", "6763", "6764", "6765", "6766"]
    case Mastercard => ["51", "52", "53", "54", "55"]
    case Solo => ["6334", "6767"]
    case UnionPay => UnionPayPrefixes
    case Visa => ["4"]
  }

  /** `s.substr(0, p.length) == p`. */
  predicate StartsWith(s: string, p: string) {
    |p| <= |s| && s[..|p|] == p
  }

  /** The number has one of the prefixes and one of the lengths. */
  predicate Fits(ls: seq<nat>, ps: seq<string>, n: string) {
    |n| in ls && exists i :: 0 <= i < |ps| && StartsWith(n, ps[i])
  }

  predicate IsOfType(t: CardType, n: string) {
    Fits(Lengths(t), Prefixes(t), n)
  }

  /** The inner loop over one type's prefixes, each tested with the length. */
  method MatchesType(ls: seq<nat>, ps: seq<string>, n: string) returns (b: bool)
    ensures b <==> Fits(ls, ps, n)
  {
    var i := 0;
    while i < |ps|
      invariant 0 <= i <= |ps|
      invariant forall j :: 0 <= j < i ==> !(StartsWith(n, ps[j]) && |n| in ls)
    {
      if StartsWith(n, ps[i]) && |n| in ls {
        return true;
      }
      i := i + 1;
    }
    return false;
  }

  /** Whether some type of the table fits the number. */
  predicate AnyFits<T>(ts: seq<T>, lengths: T -> seq<nat>, prefixes: T -> seq<string>, n: string) {
    exists j :: 0 <= j < |ts| && Fits(lengths(ts[j]), prefixes(ts[j]), n)
  }

  /** The outer loop of `creditCard`: the first fitting type ends the search. */
  method FindFit<T>(ts: seq<T>, lengths: T -> seq<nat>, prefixes: T -> seq<string>, n: string) returns (b: bool)
    ensures b <==> AnyFits(ts, lengths, prefixes, n)
  {
    var k := 0;
    while k < |ts|
      invariant 0 <= k <= |ts|
      invariant forall j :: 0 <= j < k ==> !Fits(lengths(ts[j]), prefixes(ts[j]), n)
    {
      var m := MatchesType(lengths(ts[k]), prefixes(ts[k]), n);
      if m {
        return true;
      }
      k := k + 1;
    }
    return false;
  }

  /** The last type of the table that fits the number. */
  function LastFit<T>(ts: seq<T>, lengths: T -> seq<nat>, prefixes: T -> seq<string>, n: string): (r: Option<T>)
    ensures r.Some? ==> r.value in ts && Fits(lengths(r.value), prefixes(r.value), n)
    ensures r.None? <==> !AnyFits(ts, lengths, prefixes, n)
  {
    if ts == [] then None
    else if Fits(lengths(ts[|ts| - 1]), prefixes(ts[|ts| - 1]), n) then Some(ts[|ts| - 1])
    else
      var r := LastFit(ts[..|ts| - 1], lengths, prefixes, n);
      assert forall j :: 0 <= j < |ts| - 1 ==> ts[..|ts| - 1][j] == ts[j];
      r
  }

  /** The outer loop of `cvv`: a fitting type overwrites the one found before. */
  method FindLastFit<T>(ts: seq<T>, lengths: T -> seq<nat>, prefixes: T -> seq<string>, n: string) returns (r: Option<T>)
    ensures r == LastFit(ts, lengths, prefixes, n)
  {
    r := None;
    var k := 0;
    while k < |ts|
      invariant 0 <= k <= |ts|
      invariant r == LastFit(ts[..k], lengths, prefixes, n)
    {
      assert ts[..k + 1][..k] == ts[..k];
      var m := MatchesType(lengths(ts[k]), prefixes(ts[k]), n);
      if m {
        r := Some(ts[k]);
      }
      k := k + 1;
    }
    assert ts[..k] == ts;
  }

  /** Characters `creditCard` lets through: digits, dashes and white space. */
  predicate Allowed(c: char) {
    IsDigit(c) || c == '-' || IsSpace(c)
  }

  /** What `creditCard` accepts. */
  predicate CardValid(value: string) {
    value == []
    || ((forall i :: 0 <= i < |value| ==> Allowed(value[i]))
        && Luhn.Valid(StripNonDigits(value))
        && AnyFits(Types, Lengths, Prefixes, StripNonDigits(value)))
  }

  /**
   The `creditCard` validator: a character other than a digit, dash or white
   space rejects; the digits must pass Luhn and then match some type of the
   table, which is searched in order.
   */
  method CreditCardCheck(value: string) returns (ok: bool)
    ensures ok <==> CardValid(value)
  {
    if value == [] {
      return true;
    }
    var i := 0;
    while i < |value|
      invariant 0 <= i <= |value|
      invariant forall j :: 0 <= j < i ==> Allowed(value[j])
    {
      if !Allowed(value[i]) {
        return false;
      }
      i := i + 1;
    }
    var n := StripNonDigits(value);
    var l := Luhn.LuhnCheck(n);
    if !l {
      return false;
    }
    ok := FindFit(Types, Lengths, Prefixes, n);
  }

  /**
   Dashes and spaces are only formatting: a number written with them is
   accepted exactly when its bare digits are.
   */
  lemma SeparatorsIgnored(value: string)
    requires forall i :: 0 <= i < |value| ==> Allowed(value[i])
    requires StripNonDigits(value) != []
    ensures CardValid(value) <==> CardValid(StripNonDigits(value))
  {
    var n := StripNonDigits(value);
    StripKeepsDigits(n);
  }

  /** The type `cvv` settles on: the LAST type of the table the number matches. */
  function LastType(n: string): Option<CardType> {
    LastFit(Types, Lengths, Prefixes, n)
  }

  /** The CVV length a card type asks for. */
  function CvvLength(t: CardType): nat {
    if t == AmericanExpress then 4 else 3
  }

  /**
   What `cvv` accepts.  `card` is the value of the credit-card field named
   by the `creditCardField` option, `None` when the option is not set.  The
   card value is matched as typed, without removing separators.
   */
  predicate CvvValid(value: string, card: Option<string>) {
    value == []
    || ((|value| == 3 || |value| == 4) && AllDigits(value)
        && (card.None? || card.value == []
            || (LastType(card.value).Some? && |value| == CvvLength(LastType(card.value).value))))
  }

  /**
   The `cvv` validator: three or four digits; with a card number, the type
   found last in the table decides between four digits (American Express)
   and three.  A matching prefix only leaves the inner loop, so later types
   overwrite earlier ones.
   */
  method CvvCheck(value: string, card: Option<string>) returns (ok: bool)
    ensures ok <==> CvvValid(value, card)
  {
    if value == [] {
      return true;
    }
    if !((|value| == 3 || |value| == 4) && AllDigits(value)) {
      return false;
    }
    if card.None? || card.value == [] {
      return true;
    }
    var found := FindLastFit(Types, Lengths, Prefixes, card.value);
    ok := found.Some? && |value| == CvvLength(found.value);
  }

  /** An American Express number matches no later type, so it asks for four digits. */
  lemma AmexNeedsFour(n: string)
    requires IsOfType(AmericanExpress, n)
    ensures LastType(n) == Some(AmericanExpress)
  {
    assert |n| == 15 && n[0] == '3';
    assert !IsOfType(Maestro, n) by {
      var ps := Prefixes(Maestro);
      forall i | 0 <= i < |ps|
        ensures !StartsWith(n, ps[i])
      {
        assert ps[i][0] != '3';
      }
    }
    forall j | 1 <= j < |Types|
      ensures !IsOfType(Types[j], n)
    {
    }
    var r := LastType(n);
    assert r.Some? by {
      assert IsOfType(Types[0], n);
    }
  }
}
