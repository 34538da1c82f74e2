/**
 * Calendar date-times and the fixed layouts the scripts read and write with
 * `strptime` / `strftime`:
 *   - `%Y:%m:%d %H:%M:%S`  (EXIF date tags),
 *   - `%Y-%m-%d`           (the Date column of the calendar CSV),
 *   - `%Y%m%dT%H%M%S`      (iCalendar DATE-TIME values),
 *   - `%Y`, `%m`, `%d`     (the photo folders).
 *
 * A layout is a sequence of literal characters and numeric fields. Reading
 * starts from `strptime`'s defaults (1900-01-01 00:00:00), fills in the fields
 * the layout names, and then checks the result the way `datetime` does.
 */
module Dates {
  import opened Wrappers
  import opened Text

  datatype DateTime = DateTime(year: int, month: int, day: int, hour: int, minute: int, second: int)

  // ---------------------------------------------------------------- the calendar

  predicate IsLeapYear(y: int) {
    y % 4 == 0 && (y % 100 != 0 || y % 400 == 0)
  }

  function DaysInMonth(y: int, m: int): int
    requires 1 <= m <= 12
  {
    if m == 2 then (if IsLeapYear(y) then 29 else 28)
    else if m == 4 || m == 6 || m == 9 || m == 11 then 30
    else 31
  }

  predicate ValidDate(y: int, m: int, d: int) {
    1 <= y <= 9999 && 1 <= m <= 12 && 1 <= d <= DaysInMonth(y, m)
  }

  predicate ValidTime(h: int, mi: int, s: int) {
    0 <= h <= 23 && 0 <= mi <= 59 && 0 <= s <= 59
  }

  /** The values a `datetime.datetime` can hold (years 1 to 9999). */
  predicate Valid(dt: DateTime) {
    ValidDate(dt.year, dt.month, dt.day) && ValidTime(dt.hour, dt.minute, dt.second)
  }

  /** The date-times a `datetime.datetime` value can be. */
  type ValidDateTime = dt: DateTime | Valid(dt) witness DateTime(1970, 1, 1, 0, 0, 0)

  // ---------------------------------------------------------------- layouts

  datatype Unit = Year | Month | Day | Hour | Minute | Second
  datatype Token = Lit(c: char) | Num(unit: Unit)
  type Layout = seq<Token>

  /** `%Y` is written with four digits, every other field with two. */
  function Width(u: Unit): nat {
    if u == Year then 4 else 2
  }

  function Get(dt: DateTime, u: Unit): int {
    match u
    case Year => dt.year
    case Month => dt.month
    case Day => dt.day
    case Hour => dt.hour
    case Minute => dt.minute
    case Second => dt.second
  }

  function Set(dt: DateTime, u: Unit, v: int): DateTime {
    match u
    case Year => dt.(year := v)
    case Month => dt.(month := v)
    case Day => dt.(day := v)
    case Hour => dt.(hour := v)
    case Minute => dt.(minute := v)
    case Second => dt.(second := v)
  }

  const ExifLayout: Layout :=
    [Num(Year), Lit(':'), Num(Month), Lit(':'), Num(Day), Lit(' '),
     Num(Hour), Lit(':'), Num(Minute), Lit(':'), Num(Second)]

  const IsoDateLayout: Layout := [Num(Year), Lit('-'), Num(Month), Lit('-'), Num(Day)]

  const CompactLayout: Layout :=
    [Num(Year), Num(Month), Num(Day), Lit('T'), Num(Hour), Num(Minute), Num(Second)]

  /** `strptime` starts from 1900-01-01 00:00:00 and overwrites the fields it reads. */
  const Default := DateTime(1900, 1, 1, 0, 0, 0)

  // ---------------------------------------------------------------- fixed-width digits

  function Pow10(n: nat): nat {
    if n == 0 then 1 else 10 * Pow10(n - 1)
  }

  /** `n` written with exactly `width` digits, zero-padded on the left. */
  function Pad(n: nat, width: nat): (r: string)
    ensures |r| == width && AllDigits(r)
  {
    if width == 0 then [] else Pad(n / 10, width - 1) + [DigitChar(n % 10)]
  }

  /** A number that fits in `width` digits is read back from its padded form. */
  lemma {:induction false} PadValue(n: nat, width: nat)
    requires n < Pow10(width)
    ensures DigitsValue(Pad(n, width)) == n
  {
    if width > 0 {
      PadValue(n / 10, width - 1);
      var r := Pad(n, width);
      assert r[..|r| - 1] == Pad(n / 10, width - 1);
    }
  }

  /** Padding the value of a digit string to its own length gives the string back. */
  lemma {:induction false} PadOfDigits(x: string)
    requires AllDigits(x)
    ensures DigitsValue(x) < Pow10(|x|)
    ensures Pad(DigitsValue(x), |x|) == x
  {
    if x != [] {
      var init := x[..|x| - 1];
      PadOfDigits(init);
      var v := DigitsValue(x);
      assert v == DigitsValue(init) * 10 + DigitValue(x[|x| - 1]);
      assert v / 10 == DigitsValue(init) && v % 10 == DigitValue(x[|x| - 1]);
      assert x == init + [x[|x| - 1]];
    }
  }

  /** Every field of `dt` fits the width its layout token gives it. */
  predicate Fits(dt: DateTime) {
    && 0 <= dt.year < 10000 && 0 <= dt.month < 100 && 0 <= dt.day < 100
    && 0 <= dt.hour < 100 && 0 <= dt.minute < 100 && 0 <= dt.second < 100
  }

  lemma FitsGet(dt: DateTime, u: Unit)
    requires Fits(dt)
    ensures 0 <= Get(dt, u) < Pow10(Width(u))
  {
    assert Pow10(2) == 100;
    assert Pow10(4) == 10000;
  }

  // ---------------------------------------------------------------- writing and reading

  /** What one token of a layout writes for `dt`. */
  function Piece(t: Token, dt: DateTime): string
    requires Fits(dt)
  {
    match t
    case Lit(c) => [c]
    case Num(u) =>
      FitsGet(dt, u);
      Pad(Get(dt, u), Width(u))
  }

  /** `dt.strftime(layout)`. */
  function Strftime(layout: Layout, dt: DateTime): string
    requires Fits(dt)
  {
    if layout == [] then [] else Piece(layout[0], dt) + Strftime(layout[1..], dt)
  }

  /** Reads `s` against `layout`, filling the fields of `acc`; the whole string must be used. */
  function Parse(layout: Layout, s: string, acc: DateTime): Option<DateTime>
  {
    if layout == [] then
      if s == [] then Some(acc) else None
    else
      match layout[0]
      case Lit(c) =>
        if s != [] && s[0] == c then Parse(layout[1..], s[1..], acc) else None
      case Num(u) =>
        var w := Width(u);
        if |s| >= w && AllDigits(s[..w]) then Parse(layout[1..], s[w..], Set(acc, u, DigitsValue(s[..w])))
        else None
  }

  /** `datetime.strptime(s, layout)`, with every field written at full width. */
  function Strptime(layout: Layout, s: string): Option<DateTime>
  {
    match Parse(layout, s, Default)
    case Some(dt) => if Valid(dt) then Some(dt) else None
    case None => None
  }

  /** The fields of `dt` that `layout` names, written over `acc`. */
  function Merge(acc: DateTime, dt: DateTime, layout: Layout): DateTime
    decreases |layout|
  {
    if layout == [] then acc
    else
      match layout[0]
      case Lit(_) => Merge(acc, dt, layout[1..])
      case Num(u) => Merge(Set(acc, u, Get(dt, u)), dt, layout[1..])
  }

  predicate DistinctUnits(layout: Layout) {
    forall i, j :: 0 <= i < j < |layout| && layout[i].Num? && layout[j].Num? ==> layout[i].unit != layout[j].unit
  }

  // ---------------------------------------------------------------- the two directions

  /** Reading what `Strftime` wrote recovers the fields the layout names. */
  lemma {:induction false} ParseStrftime(layout: Layout, dt: DateTime, acc: DateTime)
    requires Fits(dt)
    ensures Parse(layout, Strftime(layout, dt), acc) == Some(Merge(acc, dt, layout))
  {
    if layout != [] {
      var s := Strftime(layout, dt);
      var tail := Strftime(layout[1..], dt);
      match layout[0]
      case Lit(c) =>
        assert s == [c] + tail;
        assert s[1..] == tail;
        ParseStrftime(layout[1..], dt, acc);
      case Num(u) =>
        FitsGet(dt, u);
        var w := Width(u);
        var piece := Pad(Get(dt, u), w);
        assert s == piece + tail;
        assert s[..w] == piece && s[w..] == tail;
        PadValue(Get(dt, u), w);
        ParseStrftime(layout[1..], dt, Set(acc, u, Get(dt, u)));
    }
  }

  /** A field the rest of the layout does not name keeps the value it had. */
  lemma {:induction false} ParseKeeps(layout: Layout, s: string, acc: DateTime, r: DateTime, u: Unit)
    requires Parse(layout, s, acc) == Some(r)
    requires Num(u) !in layout
    ensures Get(r, u) == Get(acc, u)
  {
    if layout != [] {
      assert Num(u) !in layout[1..];
      match layout[0]
      case Lit(c) =>
        ParseKeeps(layout[1..], s[1..], acc, r, u);
      case Num(v) =>
        var w := Width(v);
        var acc' := Set(acc, v, DigitsValue(s[..w]));
        ParseKeeps(layout[1..], s[w..], acc', r, u);
    }
  }

  lemma {:induction false} ParseFits(layout: Layout, s: string, acc: DateTime, r: DateTime)
    requires Fits(acc)
    requires Parse(layout, s, acc) == Some(r)
    ensures Fits(r)
  {
    if layout != [] {
      match layout[0]
      case Lit(c) =>
        ParseFits(layout[1..], s[1..], acc, r);
      case Num(u) =>
        var w := Width(u);
        CanonicalStep(layout, s, acc, u);
        ParseFits(layout[1..], s[w..], Set(acc, u, DigitsValue(s[..w])), r);
    }
  }

  lemma CanonicalStep(layout: Layout, s: string, acc: DateTime, u: Unit)
    requires Fits(acc) && layout != [] && layout[0] == Num(u)
    requires |s| >= Width(u) && AllDigits(s[..Width(u)])
    ensures Fits(Set(acc, u, DigitsValue(s[..Width(u)])))
    ensures Pad(DigitsValue(s[..Width(u)]), Width(u)) == s[..Width(u)]
  {
    PadOfDigits(s[..Width(u)]);
    assert Pow10(2) == 100 && Pow10(4) == 10000;
  }

  lemma FirstUnitNotRepeated(layout: Layout, u: Unit)
    requires DistinctUnits(layout) && layout != [] && layout[0] == Num(u)
    ensures Num(u) !in layout[1..]
  {
  }

  /** With each field named once, the only string read as `r` is the one `Strftime` writes for `r`. */
  lemma {:induction false} ParseCanonical(layout: Layout, s: string, acc: DateTime, r: DateTime)
    requires DistinctUnits(layout) && Fits(acc)
    requires Parse(layout, s, acc) == Some(r)
    ensures Fits(r) && s == Strftime(layout, r)
  {
    ParseFits(layout, s, acc, r);
    if layout != [] {
      assert DistinctUnits(layout[1..]);
      match layout[0]
      case Lit(c) =>
        ParseCanonical(layout[1..], s[1..], acc, r);
        assert s == [c] + s[1..];
      case Num(u) =>
        var w := Width(u);
        var v := DigitsValue(s[..w]);
        var acc' := Set(acc, u, v);
        CanonicalStep(layout, s, acc, u);
        ParseCanonical(layout[1..], s[w..], acc', r);
        FirstUnitNotRepeated(layout, u);
        ParseKeeps(layout[1..], s[w..], acc', r, u);
        assert Get(r, u) == v;
        assert Piece(Num(u), r) == s[..w];
        assert s == s[..w] + s[w..];
    }
  }

  /** `strptime` inverts `strftime` on every valid date-time whose unnamed fields are at their defaults. */
  lemma StrptimeStrftime(layout: Layout, dt: DateTime)
    requires Valid(dt)
    requires Merge(Default, dt, layout) == dt
    ensures Fits(dt) && Strptime(layout, Strftime(layout, dt)) == Some(dt)
  {
    ParseStrftime(layout, dt, Default);
  }

  /** `strptime` accepts only the canonical, fully padded spelling of what it returns. */
  lemma StrptimeCanonical(layout: Layout, s: string, dt: DateTime)
    requires DistinctUnits(layout)
    requires Strptime(layout, s) == Some(dt)
    ensures Valid(dt) && Fits(dt) && s == Strftime(layout, dt)
  {
    ParseCanonical(layout, s, Default, dt);
  }

  // ---------------------------------------------------------------- the layouts in use

  /** The EXIF layout names every field of a date-time. */
  lemma ExifLayoutComplete(dt: DateTime)
    ensures Merge(Default, dt, ExifLayout) == dt
  {
  }

  lemma ExifLayoutDistinct()
    ensures DistinctUnits(ExifLayout)
  {
  }

  /** The compact layout names every field of a date-time. */
  lemma CompactLayoutComplete(dt: DateTime)
    ensures Merge(Default, dt, CompactLayout) == dt
  {
  }

  lemma CompactLayoutDistinct()
    ensures DistinctUnits(CompactLayout)
  {
  }

  /** The ISO date layout names the date and leaves the time at midnight. */
  lemma IsoDateLayoutFields(dt: DateTime)
    ensures Merge(Default, dt, IsoDateLayout) == Default.(year := dt.year, month := dt.month, day := dt.day)
  {
  }

  lemma IsoDateLayoutDistinct()
    ensures DistinctUnits(IsoDateLayout)
  {
  }
}
