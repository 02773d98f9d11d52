/**
 The `date` validator: the `format` option names one of sixteen layouts;
 the input must have that layout, and the day, month and year it gives must
 be a date of the Gregorian calendar with a four-digit year (and, for the
 layouts with a time, an hour from 1 to 12 and a minute from 0 to 59).
 */
module Date {
  import opened Chars

  /** Where year, month and day stand. */
  datatype Order = YearDayMonth | DayMonthYear | YearMonthDay | MonthDayYear

  datatype Separator = Slash | Dash

  /** A layout the validator knows; `timed` adds the ` h:m A` time of day. */
  datatype Format = Format(order: Order, sep: Separator, timed: bool)

  function SepChar(s: Separator): char {
    if s == Slash then '/' else '-'
  }

  /** The format string that names a layout, as the option spells it. */
  function Name(f: Format): string {
    var s := [SepChar(f.sep)];
    var date :=
      match f.order
      case YearDayMonth => "YYYY" + s + "DD" + s + "MM"
      case DayMonthYear => "DD" + s + "MM" + s + "YYYY"
      case YearMonthDay => "YYYY" + s + "MM" + s + "DD"
      case MonthDayYear => "MM" + s + "DD" + s + "YYYY";
    if f.timed then date + " h:m A" else date
  }

  /** The format used when the option is not set: `MM/DD/YYYY`. */
  const Default := Format(MonthDayYear, Slash, false)

  /** The layout a format string names, if any: the sixteen cases of the `switch`. */
  function FormatOf(name: string): (r: Option<Format>)
    ensures r.Some? ==> Name(r.value) == name
  {
    var timed := |name| == 16 && name[10..] == " h:m A";
    var s := if timed then name[..10] else name;
    if |s| != 10 then None
    else
      var candidate :=
        if s[0] == 'Y' then
          Format(if s[5] == 'D' then YearDayMonth else YearMonthDay, if s[4] == '/' then Slash else Dash, timed)
        else
          Format(if s[0] == 'D' then DayMonthYear else MonthDayYear, if s[2] == '/' then Slash else Dash, timed);
      if Name(candidate) == name then Some(candidate) else None
  }

  /** Every layout is found again from its name. */
  lemma FormatOfName(f: Format)
    ensures FormatOf(Name(f)) == Some(f)
  {
    var d := Name(Format(f.order, f.sep, false));
    assert |d| == 10;
    if f.timed {
      assert Name(f) == d + " h:m A";
      assert (d + " h:m A")[10..] == " h:m A";
      assert (d + " h:m A")[..10] == d;
    } else {
      assert Name(f) == d;
    }
  }

  /** A piece of an input layout. */
  datatype Tok =
    | Num(min: nat, max: nat) // `\d{min,max}`
    | Lit(c: char)            // the character itself
    | Spaces                  // `\s+`
    | Meridiem                // `(AM|PM)`, any case

  /** A layout's regular expression, piece by piece. */
  datatype Layout = Done | Piece(tok: Tok, next: Layout)

  /** The date part of a layout, followed by `tail`. */
  function DatePart(o: Order, sep: Separator, tail: Layout): Layout {
    var s := Lit(SepChar(sep));
    if o == YearDayMonth || o == YearMonthDay then
      Piece(Num(4, 4), Piece(s, Piece(Num(1, 2), Piece(s, Piece(Num(1, 2), tail)))))
    else
      Piece(Num(1, 2), Piece(s, Piece(Num(1, 2), Piece(s, Piece(Num(4, 4), tail)))))
  }

  /** `\s+(\d{1,2}):(\d{1,2})\s+(AM|PM)`. */
  const TimePart: Layout :=
    Piece(Spaces, Piece(Num(1, 2), Piece(Lit(':'), Piece(Num(1, 2), Piece(Spaces, Piece(Meridiem, Done))))))

  /** The regular expression of a format. */
  function Pattern(f: Format): (p: Layout)
    ensures NumCount(p) == if f.timed then 5 else 3
  {
    DatePart(f.order, f.sep, if f.timed then TimePart else Done)
  }

  /** The number of numeric groups. */
  function NumCount(l: Layout): nat {
    match l
    case Done => 0
    case Piece(t, next) => (if t.Num? then 1 else 0) + NumCount(next)
  }

  /** The length of the longest prefix of white space. */
  function SpacePrefix(v: string): (n: nat)
    ensures n <= |v| && (n < |v| ==> !IsSpace(v[n]))
    ensures forall i :: 0 <= i < n ==> IsSpace(v[i])
  {
    if v == [] || !IsSpace(v[0]) then 0 else 1 + SpacePrefix(v[1..])
  }

  /**
   Matching the whole input against a layout, with the values of the numeric
   groups.  Every run of digits and every run of white space is taken whole:
   in the layouts the piece after such a run never starts with a digit (or
   with white space), so a shorter run could not let the rest match.
   */
  function Scan(v: string, l: Layout): (r: Option<seq<nat>>)
    ensures r.Some? ==> |r.value| == NumCount(l)
  {
    match l
    case Done => if v == [] then Some([]) else None
    case Piece(Num(lo, hi), next) =>
      var n := DigitPrefix(v);
      if lo <= n <= hi then
        match Scan(v[n..], next)
        case Some(ns) => Some([NumberOf(v[..n])] + ns)
        case None => None
      else None
    case Piece(Lit(c), next) => if v != [] && v[0] == c then Scan(v[1..], next) else None
    case Piece(Spaces, next) =>
      var n := SpacePrefix(v);
      if n >= 1 then Scan(v[n..], next) else None
    case Piece(Meridiem, next) =>
      if |v| >= 2 && (SameLetter(v[0], 'A') || SameLetter(v[0], 'P')) && SameLetter(v[1], 'M')
      then Scan(v[2..], next) else None
  }

  predicate IsLeap(y: int) {
    y % 400 == 0 || (y % 100 != 0 && y % 4 == 0)
  }

  /** `numDays[month - 1]`, with February lengthened in a leap year. */
  function DaysIn(y: int, m: int): (r: nat)
    requires 1 <= m <= 12
    ensures 28 <= r <= 31
  {
    if m == 2 then (if IsLeap(y) then 29 else 28)
    else if m == 4 || m == 6 || m == 9 || m == 11 then 30
    else 31
  }

  /** Year, month and day among the groups of a layout. */
  function Ymd(o: Order, ns: seq<nat>): (nat, nat, nat)
    requires |ns| >= 3
  {
    match o
    case YearDayMonth => (ns[0], ns[2], ns[1])
    case DayMonthYear => (ns[2], ns[1], ns[0])
    case YearMonthDay => (ns[0], ns[1], ns[2])
    case MonthDayYear => (ns[2], ns[0], ns[1])
  }

  predicate IsCalendarDate(y: int, m: int, d: int) {
    1000 <= y <= 9999 && 1 <= m <= 12 && 1 <= d <= DaysIn(y, m)
  }

  /** The tests on the groups: the time of day if there is one, then the date. */
  predicate Accept(f: Format, ns: seq<nat>)
    requires |ns| >= (if f.timed then 5 else 3)
  {
    (!f.timed || (1 <= ns[3] <= 12 && ns[4] <= 59))
    && var (y, m, d) := Ymd(f.order, ns); IsCalendarDate(y, m, d)
  }

  /**
   The `date` validator.  An empty input is accepted; an unset format is
   `MM/DD/YYYY`; a format string that is not one of the sixteen layouts (a
   format without `/` or `-` among them) rejects.
   */
  function DateValid(value: string, format: string): bool {
    if value == [] then true
    else
      match FormatOf(if format == [] then Name(Default) else format)
      case None => false
      case Some(f) =>
        match Scan(value, Pattern(f))
        case None => false
        case Some(ns) => Accept(f, ns)
  }

  /** `n` written with exactly `w` digits, zeros in front. */
  function Pad(n: nat, w: nat): (r: string)
    ensures |r| == w && AllDigits(r)
    ensures n < Pow10(w) ==> NumberOf(r) == n
  {
    if w == 0 then []
    else
      var r := Pad(n / 10, w - 1) + [DigitChar(n % 10)];
      assert r[..|r| - 1] == Pad(n / 10, w - 1);
      r
  }

  /** Whether a piece can match a string starting with a digit, or with white space. */
  predicate StartsDigit(t: Tok) {
    t.Num? || (t.Lit? && IsDigit(t.c))
  }

  predicate StartsSpace(t: Tok) {
    t.Spaces? || (t.Lit? && IsSpace(t.c))
  }

  /** The shape every layout has: groups of at least one digit, and no run
      that could swallow the start of the piece after it. */
  predicate WellFormed(l: Layout) {
    match l
    case Done => true
    case Piece(t, next) =>
      (t.Num? ==> 1 <= t.min <= t.max && (next.Piece? ==> !StartsDigit(next.tok)))
      && (t.Spaces? ==> (next.Piece? ==> !StartsSpace(next.tok)))
      && WellFormed(next)
  }

  lemma PatternWellFormed(f: Format)
    ensures WellFormed(Pattern(f))
  {
    var tail := if f.timed then TimePart else Done;
    assert WellFormed(tail);
    var s := Lit(SepChar(f.sep));
    if f.order == YearDayMonth || f.order == YearMonthDay {
      assert WellFormed(Piece(s, Piece(Num(1, 2), tail)));
      assert WellFormed(Piece(s, Piece(Num(1, 2), Piece(s, Piece(Num(1, 2), tail)))));
    } else {
      assert WellFormed(Piece(s, Piece(Num(4, 4), tail)));
      assert WellFormed(Piece(s, Piece(Num(1, 2), Piece(s, Piece(Num(4, 4), tail)))));
    }
  }

  /** Every group value fits the widest group it can be written in. */
  predicate Fits(l: Layout, ns: seq<nat>)
    requires |ns| == NumCount(l)
  {
    match l
    case Done => true
    case Piece(t, next) =>
      if t.Num? then ns[0] < Pow10(t.max) && Fits(next, ns[1..]) else Fits(next, ns)
  }

  /** An input written in a layout: groups zero-padded to their widest,
      one space for `\s+`, `AM` for the meridiem. */
  function Render(l: Layout, ns: seq<nat>): string
    requires |ns| == NumCount(l)
  {
    match l
    case Done => []
    case Piece(Num(_, hi), next) => Pad(ns[0], hi) + Render(next, ns[1..])
    case Piece(Lit(c), next) => [c] + Render(next, ns)
    case Piece(Spaces, next) => " " + Render(next, ns)
    case Piece(Meridiem, next) => "AM" + Render(next, ns)
  }

  /** What an input written in a layout starts with. */
  lemma RenderHead(l: Layout, ns: seq<nat>)
    requires l.Piece? && |ns| == NumCount(l)
    requires l.tok.Num? ==> l.tok.max >= 1
    ensures Render(l, ns) != []
    ensures IsDigit(Render(l, ns)[0]) ==> StartsDigit(l.tok)
    ensures IsSpace(Render(l, ns)[0]) ==> StartsSpace(l.tok)
  {
  }

  lemma {:induction false} DigitPrefixConcat(a: string, b: string)
    requires AllDigits(a) && (b == [] || !IsDigit(b[0]))
    ensures DigitPrefix(a + b) == |a|
    decreases |a|
  {
    if a != [] {
      assert (a + b)[1..] == a[1..] + b;
      DigitPrefixConcat(a[1..], b);
    } else {
      assert a + b == b;
    }
  }

  /** Scanning an input written in a well-formed layout gives back the group values. */
  lemma {:induction false} ScanRender(l: Layout, ns: seq<nat>)
    requires |ns| == NumCount(l) && WellFormed(l) && Fits(l, ns)
    ensures Scan(Render(l, ns), l) == Some(ns)
  {
    match l
    case Done =>
    case Piece(Num(lo, hi), next) =>
      ScanRender(next, ns[1..]);
      ScanNum(l, ns);
    case Piece(Lit(c), next) =>
      ScanRender(next, ns);
      assert ([c] + Render(next, ns))[1..] == Render(next, ns);
    case Piece(Spaces, next) =>
      var rest := Render(next, ns);
      if next.Piece? {
        RenderHead(next, ns);
      }
      assert (" " + rest)[1..] == rest;
      assert SpacePrefix(" " + rest) == 1;
      ScanRender(next, ns);
    case Piece(Meridiem, next) =>
      ScanRender(next, ns);
      assert ("AM" + Render(next, ns))[2..] == Render(next, ns);
  }

  /** One group: its digits are read back whole, then the rest. */
  lemma ScanNum(l: Layout, ns: seq<nat>)
    requires l.Piece? && l.tok.Num? && |ns| == NumCount(l) && WellFormed(l) && Fits(l, ns)
    requires Scan(Render(l.next, ns[1..]), l.next) == Some(ns[1..])
    ensures Scan(Render(l, ns), l) == Some(ns)
  {
    var hi := l.tok.max;
    var a := Pad(ns[0], hi);
    var rest := Render(l.next, ns[1..]);
    if l.next.Piece? {
      RenderHead(l.next, ns[1..]);
    }
    DigitPrefixConcat(a, rest);
    assert (a + rest)[..hi] == a && (a + rest)[hi..] == rest;
    assert ns == [ns[0]] + ns[1..];
  }

  /** The group values of a date (and time) in the order a layout lists them. */
  function Groups(f: Format, y: nat, m: nat, d: nat, h: nat, mi: nat): (ns: seq<nat>)
    ensures |ns| == (if f.timed then 5 else 3)
    ensures Ymd(f.order, ns) == (y, m, d)
    ensures f.timed ==> ns[3] == h && ns[4] == mi
  {
    var date :=
      match f.order
      case YearDayMonth => [y, d, m]
      case DayMonthYear => [d, m, y]
      case YearMonthDay => [y, m, d]
      case MonthDayYear => [m, d, y];
    if f.timed then date + [h, mi] else date
  }

  /** Group values below 100, with a four-digit year, fit every layout. */
  lemma FitsPattern(f: Format, y: nat, m: nat, d: nat, h: nat, mi: nat)
    requires y <= 9999 && m < 100 && d < 100 && h < 100 && mi < 100
    ensures Fits(Pattern(f), Groups(f, y, m, d, h, mi))
  {
    assert Pow10(2) == 100 && Pow10(4) == 10000;
    var tail := if f.timed then TimePart else Done;
    var ts: seq<nat> := if f.timed then [h, mi] else [];
    assert Fits(tail, ts) by {
      if f.timed {
        var t3 := Piece(Spaces, Piece(Meridiem, Done));
        assert Fits(t3, []);
        assert [mi][1..] == [];
        assert Fits(Piece(Num(1, 2), t3), [mi]);
        assert [h, mi][1..] == [mi];
        assert Fits(Piece(Num(1, 2), Piece(Lit(':'), Piece(Num(1, 2), Piece(Spaces, Piece(Meridiem, Done))))), [h, mi]);
      }
    }
    var ns := Groups(f, y, m, d, h, mi);
    var a, b, c := ns[0], ns[1], ns[2];
    assert ns == [a, b, c] + ts;
    assert ([a, b, c] + ts)[1..] == [b, c] + ts;
    assert ([b, c] + ts)[1..] == [c] + ts;
    assert ([c] + ts)[1..] == ts;
    var sp := Lit(SepChar(f.sep));
    var yearFirst := f.order == YearDayMonth || f.order == YearMonthDay;
    var (t1, t3) := if yearFirst then (Num(4, 4), Num(1, 2)) else (Num(1, 2), Num(4, 4));
    var l3 := Piece(t3, tail);
    assert Fits(l3, [c] + ts);
    var l2 := Piece(Num(1, 2), Piece(sp, l3));
    assert Fits(l2, [b, c] + ts);
    assert Pattern(f) == Piece(t1, Piece(sp, l2));
  }

  /**
   Round trip: every calendar date with a four-digit year, written in any of
   the sixteen layouts (with any valid time of day), is accepted under the
   format that names the layout.
   */
  lemma RenderedDateAccepted(f: Format, y: nat, m: nat, d: nat, h: nat, mi: nat)
    requires IsCalendarDate(y, m, d) && 1 <= h <= 12 && mi <= 59
    ensures DateValid(Render(Pattern(f), Groups(f, y, m, d, h, mi)), Name(f))
  {
    var p := Pattern(f);
    var ns := Groups(f, y, m, d, h, mi);
    PatternWellFormed(f);
    FitsPattern(f, y, m, d, h, mi);
    ScanRender(p, ns);
    FormatOfName(f);
    RenderHead(p, ns);
    assert |Name(f)| >= 10;
  }

  /**
   An accepted input names a calendar date: scanning it in the format's
   layout gives groups whose year, month and day form one.
   */
  lemma AcceptedIsDate(value: string, f: Format)
    requires value != [] && DateValid(value, Name(f))
    ensures Scan(value, Pattern(f)).Some?
    ensures var (y, m, d) := Ymd(f.order, Scan(value, Pattern(f)).value); IsCalendarDate(y, m, d)
  {
    FormatOfName(f);
    assert |Name(f)| >= 10;
  }

  /** February 29th is accepted in leap years only: 2000 and 2024, not 1900. */
  lemma LeapDay()
    ensures Accept(Default, [2, 29, 2000]) && Accept(Default, [2, 29, 2024])
    ensures !Accept(Default, [2, 29, 1900]) && !Accept(Default, [2, 29, 2023])
  {
  }
}
