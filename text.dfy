/**
 * The string operations the scripts rely on, over `seq<char>`:
 * `str.lower`, `str.startswith` / `str.endswith`, the substring test `in`,
 * `str.find` / `str.rfind` for one character, `str.split` on one character,
 * `str.replace` (every non-overlapping occurrence, left to right), the
 * decimal rendering of a counter (`f"{n}"`) and the `int()` conversion.
 *
 * Case mapping and white space are those of the ASCII range.
 */
module Text {
  import opened Wrappers

  // ---------------------------------------------------------------- case

  function LowerChar(c: char): char {
    if 'A' <= c <= 'Z' then (c as int + 32) as char else c
  }

  /** `s.lower()` on the ASCII letters. */
  function Lower(s: string): string {
    seq(|s|, i requires 0 <= i < |s| => LowerChar(s[i]))
  }

  // ---------------------------------------------------------------- prefixes, suffixes, occurrences

  predicate StartsWith(s: string, p: string) {
    |p| <= |s| && s[..|p|] == p
  }

  predicate EndsWith(s: string, p: string) {
    |p| <= |s| && s[|s| - |p|..] == p
  }

  /** `pat` occurs in `s` starting at index `i`. */
  ghost predicate OccursAt(s: string, pat: string, i: int) {
    0 <= i && i + |pat| <= |s| && s[i..i + |pat|] == pat
  }

  lemma OccursAtShift(s: string, pat: string, i: int)
    requires |s| > 0 && i >= 0
    ensures OccursAt(s[1..], pat, i) <==> OccursAt(s, pat, i + 1)
  {
    if 0 <= i && i + |pat| <= |s| - 1 {
      assert s[1..][i..i + |pat|] == s[i + 1..i + 1 + |pat|];
    }
  }

  /** Python's `pat in s`; the empty pattern occurs in every string. */
  function Contains(s: string, pat: string): (r: bool)
    ensures r <==> exists i :: OccursAt(s, pat, i)
    decreases |s|
  {
    if |s| < |pat| then
      assert forall i :: !OccursAt(s, pat, i);
      false
    else if s[..|pat|] == pat then
      assert OccursAt(s, pat, 0);
      true
    else
      var r := Contains(s[1..], pat);
      assert r ==> exists i :: OccursAt(s, pat, i) by {
        if r {
          var i :| OccursAt(s[1..], pat, i);
          OccursAtShift(s, pat, i);
        }
      }
      assert (exists i :: OccursAt(s, pat, i)) ==> r by {
        if exists i :: OccursAt(s, pat, i) {
          var i :| OccursAt(s, pat, i);
          assert i != 0;
          OccursAtShift(s, pat, i - 1);
        }
      }
      r
  }

  // ---------------------------------------------------------------- searching for one character

  /** `s.find(c)`: the first index of `c`, or -1. */
  function Find(s: string, c: char): (r: int)
    ensures -1 <= r < |s|
    ensures r == -1 <==> c !in s
    ensures r >= 0 ==> s[r] == c && c !in s[..r]
  {
    if s == [] then -1
    else if s[0] == c then 0
    else
      var k := Find(s[1..], c);
      assert s == [s[0]] + s[1..];
      if k < 0 then -1
      else
        assert s[..k + 1] == [s[0]] + s[1..][..k];
        k + 1
  }

  /** `s.rfind(c)`: the last index of `c`, or -1. */
  function RFind(s: string, c: char): (r: int)
    ensures -1 <= r < |s|
    ensures r == -1 <==> c !in s
    ensures r >= 0 ==> s[r] == c && c !in s[r + 1..]
  {
    if s == [] then -1
    else if s[|s| - 1] == c then |s| - 1
    else
      var k := RFind(s[..|s| - 1], c);
      assert s == s[..|s| - 1] + [s[|s| - 1]];
      if k >= 0 then
        assert s[k + 1..] == s[..|s| - 1][k + 1..] + [s[|s| - 1]];
        k
      else
        k
  }

  // ---------------------------------------------------------------- split and join

  /** `s.split(sep)` for a one-character separator. */
  function Split(s: string, sep: char): (parts: seq<string>)
    ensures |parts| >= 1
    ensures forall i :: 0 <= i < |parts| ==> sep !in parts[i]
    decreases |s|
  {
    var k := Find(s, sep);
    if k < 0 then [s] else [s[..k]] + Split(s[k + 1..], sep)
  }

  /** `sep.join(parts)`. */
  function Join(parts: seq<string>, sep: char): string
    requires |parts| >= 1
  {
    if |parts| == 1 then parts[0] else parts[0] + [sep] + Join(parts[1..], sep)
  }

  lemma JoinCons(p: string, rest: seq<string>, sep: char)
    requires |rest| >= 1
    ensures Join([p] + rest, sep) == p + [sep] + Join(rest, sep)
  {
    assert ([p] + rest)[1..] == rest;
  }

  /** Joining one more part at the end adds a separator and that part. */
  lemma {:induction false} JoinSnoc(parts: seq<string>, x: string, sep: char)
    requires |parts| >= 1
    ensures Join(parts + [x], sep) == Join(parts, sep) + [sep] + x
  {
    if |parts| > 1 {
      assert (parts + [x])[1..] == parts[1..] + [x];
      JoinSnoc(parts[1..], x, sep);
    }
  }

  /** Joining the parts of a split with the same separator gives back the string. */
  lemma {:induction false} SplitJoin(s: string, sep: char)
    ensures Join(Split(s, sep), sep) == s
    decreases |s|
  {
    var k := Find(s, sep);
    if k >= 0 {
      var rest := Split(s[k + 1..], sep);
      SplitJoin(s[k + 1..], sep);
      JoinCons(s[..k], rest, sep);
      assert s == s[..k] + [sep] + s[k + 1..];
    }
  }

  /** A separator-free first part is split off at the first separator. */
  lemma SplitHead(p: string, tail: string, sep: char)
    requires sep !in p
    ensures Split(p + [sep] + tail, sep) == [p] + Split(tail, sep)
  {
    var s := p + [sep] + tail;
    assert s[|p|] == sep;
    assert s[..|p|] == p;
    assert s[|p| + 1..] == tail;
  }

  /** Splitting a join of separator-free parts gives back the parts. */
  lemma {:induction false} JoinSplit(parts: seq<string>, sep: char)
    requires |parts| >= 1
    requires forall i :: 0 <= i < |parts| ==> sep !in parts[i]
    ensures Split(Join(parts, sep), sep) == parts
  {
    if |parts| > 1 {
      SplitHead(parts[0], Join(parts[1..], sep), sep);
      JoinSplit(parts[1..], sep);
      assert parts == [parts[0]] + parts[1..];
    } else {
      assert Find(parts[0], sep) == -1;
    }
  }

  // ---------------------------------------------------------------- replace

  /** `s.replace("", rep)`: `rep` before every character and at the end. */
  function Interleave(s: string, rep: string): string {
    if s == [] then rep else rep + [s[0]] + Interleave(s[1..], rep)
  }

  /** `s.replace(pat, rep)`: every non-overlapping occurrence of `pat`, scanned left to right. */
  function ReplaceAll(s: string, pat: string, rep: string): string
    decreases |s|
  {
    if pat == [] then Interleave(s, rep)
    else if |s| < |pat| then s
    else if s[..|pat|] == pat then rep + ReplaceAll(s[|pat|..], pat, rep)
    else [s[0]] + ReplaceAll(s[1..], pat, rep)
  }

  /** Replacing one character by another keeps the length and leaves none of the first. */
  lemma {:induction false} ReplaceChar(s: string, a: char, b: char)
    requires a != b
    ensures |ReplaceAll(s, [a], [b])| == |s|
    ensures a !in ReplaceAll(s, [a], [b])
    decreases |s|
  {
    if s != [] {
      ReplaceChar(s[1..], a, b);
    }
  }

  /** A string without an occurrence of the pattern is left as it is. */
  lemma {:induction false} ReplaceWithoutMatch(s: string, pat: string, rep: string)
    requires !Contains(s, pat)
    ensures ReplaceAll(s, pat, rep) == s
    decreases |s|
  {
    if pat != [] && |s| >= |pat| {
      assert s[..|pat|] != pat;
      ReplaceWithoutMatch(s[1..], pat, rep);
      assert s == [s[0]] + s[1..];
    }
  }

  lemma {:induction false} InterleaveEmpty(s: string)
    ensures Interleave(s, []) == s
  {
    if s != [] {
      InterleaveEmpty(s[1..]);
      assert s == [s[0]] + s[1..];
    }
  }

  /** Replacing a pattern by itself changes nothing. */
  lemma {:induction false} ReplaceWithItself(s: string, pat: string)
    ensures ReplaceAll(s, pat, pat) == s
    decreases |s|
  {
    if pat == [] {
      InterleaveEmpty(s);
    } else if |s| >= |pat| {
      if s[..|pat|] == pat {
        ReplaceWithItself(s[|pat|..], pat);
        assert s == s[..|pat|] + s[|pat|..];
      } else {
        ReplaceWithItself(s[1..], pat);
        assert s == [s[0]] + s[1..];
      }
    }
  }

  /** A longer replacement never shortens the string, and lengthens it when the pattern occurs. */
  lemma {:induction false} ReplaceGrows(s: string, pat: string, rep: string)
    requires pat != [] && |rep| > |pat|
    ensures |ReplaceAll(s, pat, rep)| >= |s|
    ensures Contains(s, pat) ==> |ReplaceAll(s, pat, rep)| > |s|
    decreases |s|
  {
    if |s| >= |pat| {
      if s[..|pat|] == pat {
        ReplaceGrows(s[|pat|..], pat, rep);
      } else {
        ReplaceGrows(s[1..], pat, rep);
      }
    }
  }

  /** A shorter replacement never lengthens the string, and shortens it when the pattern occurs. */
  lemma {:induction false} ReplaceShrinks(s: string, pat: string, rep: string)
    requires pat != [] && |rep| < |pat|
    ensures |ReplaceAll(s, pat, rep)| <= |s|
    ensures Contains(s, pat) ==> |ReplaceAll(s, pat, rep)| < |s|
    decreases |s|
  {
    if |s| >= |pat| {
      if s[..|pat|] == pat {
        ReplaceShrinks(s[|pat|..], pat, rep);
      } else {
        ReplaceShrinks(s[1..], pat, rep);
      }
    }
  }

  /** When the replacement differs in length, an occurrence always changes the string. */
  lemma ReplaceChanges(s: string, pat: string, rep: string)
    requires pat != [] && |rep| != |pat| && Contains(s, pat)
    ensures ReplaceAll(s, pat, rep) != s
  {
    if |rep| > |pat| {
      ReplaceGrows(s, pat, rep);
    } else {
      ReplaceShrinks(s, pat, rep);
    }
  }

  // ---------------------------------------------------------------- decimal numbers

  predicate IsDigit(c: char) {
    '0' <= c <= '9'
  }

  predicate AllDigits(s: string) {
    forall i :: 0 <= i < |s| ==> IsDigit(s[i])
  }

  function DigitChar(d: nat): (c: char)
    requires d < 10
    ensures IsDigit(c)
  {
    ('0' as int + d) as char
  }

  function DigitValue(c: char): (d: nat)
    requires IsDigit(c)
    ensures d < 10 && DigitChar(d) == c
  {
    c as int - '0' as int
  }

  /** The value of a string of decimal digits, most significant first. */
  function DigitsValue(s: string): nat
    requires AllDigits(s)
  {
    if s == [] then 0 else DigitsValue(s[..|s| - 1]) * 10 + DigitValue(s[|s| - 1])
  }

  /** `f"{n}"` / `str(n)` for a natural number. */
  function Decimal(n: nat): string
  {
    if n < 10 then [DigitChar(n)] else Decimal(n / 10) + [DigitChar(n % 10)]
  }

  /** Reading back the decimal rendering of `n` gives `n`. */
  lemma {:induction false} DecimalRoundTrip(n: nat)
    ensures |Decimal(n)| >= 1 && AllDigits(Decimal(n))
    ensures DigitsValue(Decimal(n)) == n
  {
    if n >= 10 {
      DecimalRoundTrip(n / 10);
      var d := Decimal(n);
      assert d[..|d| - 1] == Decimal(n / 10);
    }
  }

  /** Distinct numbers have distinct renderings. */
  lemma DecimalInjective(a: nat, b: nat)
    requires Decimal(a) == Decimal(b)
    ensures a == b
  {
    DecimalRoundTrip(a);
    DecimalRoundTrip(b);
  }

  // ---------------------------------------------------------------- int()

  /** The ASCII characters Python's `str.isspace` accepts. */
  predicate IsSpace(c: char) {
    c == ' ' || 9 <= c as int <= 13 || 28 <= c as int <= 31
  }

  function TrimLeft(s: string): string {
    if s != [] && IsSpace(s[0]) then TrimLeft(s[1..]) else s
  }

  function TrimRight(s: string): string {
    if s != [] && IsSpace(s[|s| - 1]) then TrimRight(s[..|s| - 1]) else s
  }

  /** Digits with single underscores between them, as `int()` accepts: `1_000`. */
  predicate WellGrouped(s: string) {
    |s| > 0 && IsDigit(s[0]) && forall i :: 0 <= i < |s| ==> GroupChar(s, i)
  }

  /** Position `i` holds a digit, or an underscore that sits between two digits' worth of string. */
  predicate GroupChar(s: string, i: int)
    requires 0 <= i < |s|
  {
    IsDigit(s[i]) || (s[i] == '_' && 0 < i < |s| - 1 && IsDigit(s[i + 1]))
  }

  function DropUnderscores(s: string): (r: string)
    ensures (forall i :: 0 <= i < |s| ==> IsDigit(s[i]) || s[i] == '_') ==> AllDigits(r)
  {
    if s == [] then []
    else if s[0] == '_' then DropUnderscores(s[1..])
    else [s[0]] + DropUnderscores(s[1..])
  }

  /** The value of grouped digits, if they are well grouped. */
  function ParseGrouped(body: string): Option<nat>
  {
    if WellGrouped(body) then
      assert forall i :: 0 <= i < |body| ==> IsDigit(body[i]) || body[i] == '_' by {
        forall i | 0 <= i < |body| ensures IsDigit(body[i]) || body[i] == '_' {
          assert GroupChar(body, i);
        }
      }
      Some(DigitsValue(DropUnderscores(body)))
    else
      None
  }

  /** `int(s)` in base 10: surrounding white space, an optional sign, grouped digits. */
  function ParseInt(s: string): (r: Option<int>)
  {
    var t := TrimRight(TrimLeft(s));
    if t == [] then None
    else
      var body := if t[0] == '-' || t[0] == '+' then t[1..] else t;
      match ParseGrouped(body)
      case None => None
      case Some(v) => Some(if t[0] == '-' then -(v as int) else v)
  }

  lemma DropUnderscoresOfDigits(s: string)
    requires AllDigits(s)
    ensures DropUnderscores(s) == s
  {
    if s != [] {
      DropUnderscoresOfDigits(s[1..]);
    }
  }

  /** `int()` of a non-empty run of digits is their value, leading zeros included. */
  lemma ParseDigits(d: string)
    requires |d| >= 1 && AllDigits(d)
    ensures ParseInt(d) == Some(DigitsValue(d))
  {
    assert !IsSpace(d[0]) && !IsSpace(d[|d| - 1]);
    assert TrimRight(TrimLeft(d)) == d;
    DropUnderscoresOfDigits(d);
  }

  /** `int(str(n)) == n`. */
  lemma ParseDecimal(n: nat)
    ensures ParseInt(Decimal(n)) == Some(n)
  {
    DecimalRoundTrip(n);
    ParseDigits(Decimal(n));
  }
}
