/**
 * The calendar converter: each row of a CSV file with the columns Event,
 * Date, StartTime and EndTime becomes one VEVENT of an iCalendar VCALENDAR
 * object (RFC 5545, sections 3.4 and 3.6.1) with floating local DATE-TIME
 * values (section 3.3.5). Rows that fail validation are skipped; a time
 * without a colon ends the run without output. The clock reading used for
 * DTSTAMP is a parameter: `now(n)` is the time at which row `n` (counted
 * from 1) is converted.
 */
module CsvToIcs {
  import opened Wrappers
  import opened Text
  import opened Dates

  /**
   * A row as `csv.DictReader` gives it: column name to field, with `None`
   * for a column the row is too short to fill.
   */
  type Row = map<string, Option<string>>

  const Header: seq<string> := ["BEGIN:VCALENDAR", "VERSION:2.0", "PRODID:-//Chillaid//Bulk ICS Generator//EN"]

  const Footer: string := "END:VCALENDAR"

  // ---------------------------------------------------------------- one time field

  /**
   * How a time field turns into the `hour` and `minute` of
   * `datetime.replace`: both read, or a `ValueError` (a part that is not an
   * integer, or a value out of range), or an `IndexError` (no colon).
   */
  datatype TimeField = TimeOk(hour: int, minute: int) | BadTime | NoColon

  /**
   * `s.split(":")`, then `int(parts[0])`, then `parts[1]`, then
   * `int(parts[1])`, then the range check of `replace`, in that order.
   * Parts after the second are never looked at.
   */
  function ParseTime(s: string): (r: TimeField)
    ensures r.TimeOk? ==> 0 <= r.hour <= 23 && 0 <= r.minute <= 59
  {
    var parts := Split(s, ':');
    match ParseInt(parts[0])
    case None => BadTime
    case Some(h) =>
      if |parts| < 2 then NoColon
      else
        match ParseInt(parts[1])
        case None => BadTime
        case Some(m) => if 0 <= h <= 23 && 0 <= m <= 59 then TimeOk(h, m) else BadTime
  }

  /** The run-ending case is exactly a field without a colon whose whole text is an integer. */
  lemma NoColonExactly(s: string)
    ensures ParseTime(s) == NoColon <==> ':' !in s && ParseInt(s).Some?
  {
    var k := Find(s, ':');
    if k >= 0 {
      assert |Split(s, ':')| >= 2;
    }
  }

  lemma SplitPair(a: string, b: string)
    requires ':' !in a && ':' !in b
    ensures Split(a + ":" + b, ':') == [a, b]
  {
    JoinCons(a, [b], ':');
    JoinSplit([a, b], ':');
  }

  lemma SplitTriple(a: string, b: string, c: string)
    requires ':' !in a && ':' !in b && ':' !in c
    ensures Split(a + ":" + b + ":" + c, ':') == [a, b, c]
  {
    JoinCons(b, [c], ':');
    JoinCons(a, [b, c], ':');
    assert [a] + [b, c] == [a, b, c];
    assert a + ":" + b + ":" + c == a + [':'] + (b + [':'] + c);
    JoinSplit([a, b, c], ':');
  }

  /** `HH:MM` written with two digits each reads back as that hour and minute. */
  lemma ParseTimeRoundTrip(h: nat, m: nat)
    requires h <= 23 && m <= 59
    ensures ParseTime(Pad(h, 2) + ":" + Pad(m, 2)) == TimeOk(h, m)
  {
    var a, b := Pad(h, 2), Pad(m, 2);
    assert ':' !in a && ':' !in b;
    SplitPair(a, b);
    assert Pow10(2) == 100;
    PadValue(h, 2);
    PadValue(m, 2);
    ParseDigits(a);
    ParseDigits(b);
  }

  /** A bare hour has no minute part: the run ends. */
  lemma BareHourEndsRun()
    ensures ParseTime("10") == NoColon
  {
    NoColonExactly("10");
    ParseDigits("10");
  }

  /** A two-digit hour past 23 or minute past 59 makes the row a skipped one. */
  lemma OutOfRangeSkipped(h: nat, m: nat)
    requires h < 100 && m < 100 && (h > 23 || m > 59)
    ensures ParseTime(Pad(h, 2) + ":" + Pad(m, 2)) == BadTime
  {
    var a, b := Pad(h, 2), Pad(m, 2);
    assert ':' !in a && ':' !in b;
    SplitPair(a, b);
    assert Pow10(2) == 100;
    PadValue(h, 2);
    PadValue(m, 2);
    ParseDigits(a);
    ParseDigits(b);
  }

  /** Seconds, or anything else after a second colon, are ignored. */
  lemma ExtraPartsIgnored(a: string, b: string, c: string)
    requires ':' !in a && ':' !in b && ':' !in c
    ensures ParseTime(a + ":" + b + ":" + c) == ParseTime(a + ":" + b)
  {
    SplitPair(a, b);
    SplitTriple(a, b, c);
  }

  // ---------------------------------------------------------------- one row

  /** An accepted row: the event name and its start and end. */
  datatype Event = Event(name: string, start: ValidDateTime, end: ValidDateTime)

  /** What becomes of a row: an event, a skip (`KeyError` or `ValueError`), or the end of the run (any other error). */
  datatype RowResult = Accepted(event: Event) | Skipped | Aborted

  /** `dt_date.replace(hour=h, minute=m)`. */
  function At(date: ValidDateTime, h: int, m: int): ValidDateTime
    requires 0 <= h <= 23 && 0 <= m <= 59
  {
    date.(hour := h, minute := m)
  }

  /**
   * The `try` block of the row loop, step by step: the four columns (a
   * missing one is a `KeyError`), the date, the start time, the end time,
   * and the event name, which is only used once both times are read.
   * `strptime`, `split` and `replace` applied to a `None` field raise
   * errors the row handler does not catch.
   */
  function ConvertRow(row: Row): RowResult {
    if "Event" !in row || "Date" !in row || "StartTime" !in row || "EndTime" !in row then Skipped
    else if row["Date"].None? then Aborted
    else
      match Strptime(IsoDateLayout, row["Date"].value)
      case None => Skipped
      case Some(date) =>
        if row["StartTime"].None? then Aborted
        else
          match ParseTime(row["StartTime"].value)
          case BadTime => Skipped
          case NoColon => Aborted
          case TimeOk(h1, m1) =>
            if row["EndTime"].None? then Aborted
            else
              match ParseTime(row["EndTime"].value)
              case BadTime => Skipped
              case NoColon => Aborted
              case TimeOk(h2, m2) =>
                if row["Event"].None? then Aborted
                else Accepted(Event(row["Event"].value, At(date, h1, m1), At(date, h2, m2)))
  }

  /**
   * An accepted event starts and ends on the row's date, at the hours and
   * minutes of its time fields, with zero seconds.
   */
  lemma AcceptedRow(row: Row)
    requires ConvertRow(row).Accepted?
    ensures var ev := ConvertRow(row).event;
      && "Event" in row && "Date" in row && "StartTime" in row && "EndTime" in row
      && row["Event"] == Some(ev.name) && row["Date"].Some? && row["StartTime"].Some? && row["EndTime"].Some?
      && Strptime(IsoDateLayout, row["Date"].value) == Some(ev.start.(hour := 0, minute := 0))
      && Strptime(IsoDateLayout, row["Date"].value) == Some(ev.end.(hour := 0, minute := 0))
      && ParseTime(row["StartTime"].value) == TimeOk(ev.start.hour, ev.start.minute)
      && ParseTime(row["EndTime"].value) == TimeOk(ev.end.hour, ev.end.minute)
      && ev.start.second == 0 && ev.end.second == 0
  {
    DateAtMidnight(row["Date"].value);
  }

  /** `strptime` with `%Y-%m-%d` leaves the time of day at midnight. */
  lemma DateAtMidnight(s: string)
    requires Strptime(IsoDateLayout, s).Some?
    ensures var date := Strptime(IsoDateLayout, s).value;
      date.hour == 0 && date.minute == 0 && date.second == 0
  {
    var date := Strptime(IsoDateLayout, s).value;
    assert Parse(IsoDateLayout, s, Default) == Some(date);
    ParseKeeps(IsoDateLayout, s, Default, date, Hour);
    ParseKeeps(IsoDateLayout, s, Default, date, Minute);
    ParseKeeps(IsoDateLayout, s, Default, date, Second);
  }

  /**
   * A row with every field well written is accepted, whatever the order of
   * its start and end: no check compares them.
   */
  lemma WellWrittenRowAccepted(row: Row, name: string, date: ValidDateTime, h1: nat, m1: nat, h2: nat, m2: nat)
    requires date.hour == 0 && date.minute == 0 && date.second == 0
    requires h1 <= 23 && m1 <= 59 && h2 <= 23 && m2 <= 59
    requires "Event" in row && row["Event"] == Some(name)
    requires "Date" in row && row["Date"] == Some(Strftime(IsoDateLayout, date))
    requires "StartTime" in row && row["StartTime"] == Some(Pad(h1, 2) + ":" + Pad(m1, 2))
    requires "EndTime" in row && row["EndTime"] == Some(Pad(h2, 2) + ":" + Pad(m2, 2))
    ensures ConvertRow(row) == Accepted(Event(name, At(date, h1, m1), At(date, h2, m2)))
  {
    IsoDateLayoutFields(date);
    IsoDateLayoutDistinct();
    StrptimeStrftime(IsoDateLayout, date);
    ParseTimeRoundTrip(h1, m1);
    ParseTimeRoundTrip(h2, m2);
  }

  // ---------------------------------------------------------------- one event

  /** `dt.strftime("%Y%m%dT%H%M%S")`. */
  function Compact(dt: ValidDateTime): string {
    Strftime(CompactLayout, dt)
  }

  /** A DATE-TIME value reads back as the date-time it was written from. */
  lemma CompactRoundTrip(dt: ValidDateTime)
    ensures Strptime(CompactLayout, Compact(dt)) == Some(dt)
  {
    CompactLayoutComplete(dt);
    CompactLayoutDistinct();
    StrptimeStrftime(CompactLayout, dt);
  }

  /** The UID: the start's DATE-TIME value, a dash, and the name with its spaces turned into underscores. */
  function Uid(ev: Event): string {
    Compact(ev.start) + "-" + ReplaceAll(ev.name, " ", "_")
  }

  /** The UID holds no space and ends in a text as long as the event name. */
  lemma UidHasNoSpace(ev: Event)
    ensures ' ' !in Uid(ev)
    ensures |Uid(ev)| == |Compact(ev.start)| + 1 + |ev.name|
  {
    ReplaceChar(ev.name, ' ', '_');
    var c := Compact(ev.start);
    assert ' ' !in c by {
      forall i | 0 <= i < |c|
        ensures c[i] != ' '
      {
        StrftimeChars(CompactLayout, ev.start, i);
      }
    }
  }

  /** A character `Strftime` writes is a digit or a literal of the layout. */
  lemma {:induction false} StrftimeChars(layout: Layout, dt: DateTime, i: int)
    requires Fits(dt) && 0 <= i < |Strftime(layout, dt)|
    ensures IsDigit(Strftime(layout, dt)[i]) || Lit(Strftime(layout, dt)[i]) in layout
  {
    var piece := Piece(layout[0], dt);
    if i >= |piece| {
      StrftimeChars(layout[1..], dt, i - |piece|);
    }
  }

  /** The seven lines of one VEVENT. */
  function VEvent(ev: Event, stamp: ValidDateTime): seq<string> {
    [ "BEGIN:VEVENT",
      "UID:" + Uid(ev),
      "DTSTAMP:" + Compact(stamp),
      "DTSTART:" + Compact(ev.start),
      "DTEND:" + Compact(ev.end),
      "SUMMARY:" + ev.name,
      "END:VEVENT" ]
  }

  /** Line `k` of any VEVENT block: its fixed opening and closing lines and the property name each other line starts with. */
  predicate BlockLine(line: string, k: int) {
    match k
    case 0 => line == "BEGIN:VEVENT"
    case 1 => StartsWith(line, "UID:")
    case 2 => StartsWith(line, "DTSTAMP:")
    case 3 => StartsWith(line, "DTSTART:")
    case 4 => StartsWith(line, "DTEND:")
    case 5 => StartsWith(line, "SUMMARY:")
    case _ => line == "END:VEVENT"
  }

  /** The seven block lines are laid out as `BlockLine` says. */
  lemma VEventLines(ev: Event, stamp: ValidDateTime)
    ensures forall k :: 0 <= k < 7 ==> BlockLine(VEvent(ev, stamp)[k], k)
  {
  }

  lemma ModSeven(c: nat, k: int)
    requires 0 <= k < 7
    ensures (7 * c + k) % 7 == k
  {
  }

  // ---------------------------------------------------------------- the whole file

  /** What becomes of each row, in order. */
  function Outcomes(rows: seq<Row>): (r: seq<RowResult>)
    ensures |r| == |rows|
    ensures forall i :: 0 <= i < |rows| ==> r[i] == ConvertRow(rows[i])
  {
    if rows == [] then []
    else
      var init := rows[..|rows| - 1];
      assert forall i :: 0 <= i < |init| ==> init[i] == rows[i];
      Outcomes(init) + [ConvertRow(rows[|rows| - 1])]
  }

  /** How many rows become events. */
  function AcceptedCount(results: seq<RowResult>): nat {
    if results == [] then 0
    else AcceptedCount(results[..|results| - 1]) + (if results[|results| - 1].Accepted? then 1 else 0)
  }

  /**
   * The VEVENT lines the row loop appends, in row order, or `None` when a
   * row ends the run; row `n` (from 1) is stamped with `now(n)`.
   */
  function Events(results: seq<RowResult>, now: nat -> ValidDateTime): Option<seq<string>> {
    if results == [] then Some([])
    else
      match Events(results[..|results| - 1], now)
      case None => None
      case Some(lines) =>
        match results[|results| - 1]
        case Aborted => None
        case Skipped => Some(lines)
        case Accepted(ev) => Some(lines + VEvent(ev, now(|results|)))
  }

  /** The lines of the calendar: the header, every event, the footer; `None` when the run ends early. */
  function Calendar(rows: seq<Row>, now: nat -> ValidDateTime): Option<seq<string>> {
    match Events(Outcomes(rows), now)
    case None => None
    case Some(lines) => Some(Header + lines + [Footer])
  }

  /** The run ends early exactly when some outcome is an error the row handler does not catch. */
  lemma {:induction false} EventsAbort(results: seq<RowResult>, now: nat -> ValidDateTime)
    ensures Events(results, now).None? <==> exists i :: 0 <= i < |results| && results[i].Aborted?
  {
    if results != [] {
      var init := results[..|results| - 1];
      EventsAbort(init, now);
      if exists i :: 0 <= i < |init| && init[i].Aborted? {
        var i :| 0 <= i < |init| && init[i].Aborted?;
        assert results[i] == init[i];
      }
      if exists i :: 0 <= i < |results| && results[i].Aborted? {
        var i :| 0 <= i < |results| && results[i].Aborted?;
        if i < |init| {
          assert init[i] == results[i];
        }
      }
    }
  }

  /** No calendar is written exactly when some row ends the run. */
  lemma CalendarAbort(rows: seq<Row>, now: nat -> ValidDateTime)
    ensures Calendar(rows, now).None? <==> exists i :: 0 <= i < |rows| && ConvertRow(rows[i]).Aborted?
  {
    EventsAbort(Outcomes(rows), now);
  }

  /**
   * Seven lines per accepted row and nothing for a skipped one, each block
   * laid out as `BEGIN:VEVENT`, UID, DTSTAMP, DTSTART, DTEND, SUMMARY,
   * `END:VEVENT`.
   */
  lemma {:induction false} EventsShape(results: seq<RowResult>, now: nat -> ValidDateTime)
    requires Events(results, now).Some?
    ensures |Events(results, now).value| == 7 * AcceptedCount(results)
    ensures forall i :: 0 <= i < |Events(results, now).value| ==> BlockLine(Events(results, now).value[i], i % 7)
  {
    if results != [] {
      var init := results[..|results| - 1];
      EventsShape(init, now);
      var lines := Events(init, now).value;
      var last := results[|results| - 1];
      if last.Accepted? {
        var block := VEvent(last.event, now(|results|));
        var all := lines + block;
        assert Events(results, now).value == all;
        VEventLines(last.event, now(|results|));
        forall i | 0 <= i < |all|
          ensures BlockLine(all[i], i % 7)
        {
          if i >= |lines| {
            ModSeven(AcceptedCount(init), i - |lines|);
            assert all[i] == block[i - |lines|];
          }
        }
      }
    }
  }

  /**
   * The event of accepted row `k` (from 0) is the block right after the
   * blocks of the rows accepted before it, stamped with the clock reading
   * of row `k + 1`.
   */
  lemma {:induction false} EventBlock(results: seq<RowResult>, now: nat -> ValidDateTime, k: int)
    requires Events(results, now).Some?
    requires 0 <= k < |results| && results[k].Accepted?
    ensures var c := AcceptedCount(results[..k]);
      7 * c + 7 <= |Events(results, now).value|
      && Events(results, now).value[7 * c .. 7 * c + 7] == VEvent(results[k].event, now(k + 1))
  {
    var init := results[..|results| - 1];
    var lines := Events(init, now).value;
    var c := AcceptedCount(results[..k]);
    EventsShape(init, now);
    if k == |results| - 1 {
      assert results[..k] == init;
      var block := VEvent(results[k].event, now(|results|));
      assert Events(results, now).value == lines + block;
      assert (lines + block)[7 * c .. 7 * c + 7] == block;
    } else {
      assert init[k] == results[k];
      assert init[..k] == results[..k];
      EventBlock(init, now, k);
      var all := Events(results, now).value;
      assert all[..|lines|] == lines;
    }
  }

  /** Every accepted row's event is in the calendar, after the header and the events of the rows accepted before it. */
  lemma CalendarHoldsEvent(rows: seq<Row>, now: nat -> ValidDateTime, k: int)
    requires Calendar(rows, now).Some?
    requires 0 <= k < |rows| && ConvertRow(rows[k]).Accepted?
    ensures var c := |Header| + 7 * AcceptedCount(Outcomes(rows)[..k]);
      && c + 7 <= |Calendar(rows, now).value|
      && Calendar(rows, now).value[c .. c + 7] == VEvent(ConvertRow(rows[k]).event, now(k + 1))
  {
    var results := Outcomes(rows);
    EventBlock(results, now, k);
    var lines := Events(results, now).value;
    var c := 7 * AcceptedCount(results[..k]);
    assert Calendar(rows, now).value == Header + lines + [Footer];
    SliceOfFramed(Header, lines, [Footer], c);
  }

  lemma SliceOfFramed(h: seq<string>, m: seq<string>, f: seq<string>, c: nat)
    requires c + 7 <= |m|
    ensures (h + m + f)[|h| + c .. |h| + c + 7] == m[c .. c + 7]
  {
  }

  /** The calendar always opens with the header and closes with `END:VCALENDAR`, even with no event in it. */
  lemma CalendarFrame(rows: seq<Row>, now: nat -> ValidDateTime)
    requires Calendar(rows, now).Some?
    ensures var c := Calendar(rows, now).value;
      && |c| == |Header| + 7 * AcceptedCount(Outcomes(rows)) + 1
      && c[..|Header|] == Header
      && c[|c| - 1] == Footer
      && (AcceptedCount(Outcomes(rows)) == 0 ==> c == Header + [Footer])
  {
    EventsShape(Outcomes(rows), now);
  }

  /** A row that does not end the run extends the lines of the rows before it by its block, if it has one. */
  lemma EventsStep(results: seq<RowResult>, now: nat -> ValidDateTime, i: int, events: seq<string>)
    requires 0 <= i < |results| && !results[i].Aborted?
    requires Events(results[..i], now) == Some(events)
    ensures Events(results[..i + 1], now) ==
      Some(if results[i].Accepted? then events + VEvent(results[i].event, now(i + 1)) else events)
  {
    assert results[..i + 1][..i] == results[..i];
  }

  /** A row that ends the run leaves no calendar. */
  lemma EventsAbortAt(results: seq<RowResult>, now: nat -> ValidDateTime, i: int)
    requires 0 <= i < |results| && results[i].Aborted?
    ensures Events(results, now).None?
  {
    EventsAbort(results, now);
  }

  lemma AppendAssoc(a: seq<string>, b: seq<string>, c: seq<string>)
    ensures a + b + c == a + (b + c)
  {
  }

  /**
   * `generate_ics` up to the point where the file is written: the header,
   * one block per accepted row as the rows are read, the footer; `None`
   * where the run calls `sys.exit(1)`.
   */
  method GenerateIcs(rows: seq<Row>, now: nat -> ValidDateTime) returns (lines: Option<seq<string>>)
    ensures lines == Calendar(rows, now)
  {
    ghost var results := Outcomes(rows);
    ghost var events: seq<string> := [];
    var icsLines := Header;
    var rowNumber := 1;
    while rowNumber <= |rows|
      invariant 1 <= rowNumber <= |rows| + 1
      invariant Events(results[..rowNumber - 1], now) == Some(events)
      invariant icsLines == Header + events
    {
      var result := ConvertRow(rows[rowNumber - 1]);
      assert result == results[rowNumber - 1];
      if result.Aborted? {
        EventsAbortAt(results, now, rowNumber - 1);
        return None;
      }
      EventsStep(results, now, rowNumber - 1, events);
      if result.Accepted? {
        var block := VEvent(result.event, now(rowNumber));
        AppendAssoc(Header, events, block);
        icsLines := icsLines + block;
        events := events + block;
      }
      rowNumber := rowNumber + 1;
    }
    assert results[..|rows|] == results;
    icsLines := icsLines + [Footer];
    lines := Some(icsLines);
  }

  /** The text written to the `.ics` file: every line followed by `"\n"`. */
  function Render(lines: seq<string>): string {
    if lines == [] then [] else Render(lines[..|lines| - 1]) + lines[|lines| - 1] + "\n"
  }

  /** The write loop: `f.write(line + "\n")` for each line in order. */
  method WriteIcs(lines: seq<string>) returns (out: string)
    ensures out == Render(lines)
  {
    out := [];
    for i := 0 to |lines|
      invariant out == Render(lines[..i])
    {
      assert lines[..i + 1][..i] == lines[..i];
      out := out + lines[i] + "\n";
    }
    assert lines[..|lines|] == lines;
  }

  lemma {:induction false} RenderJoin(lines: seq<string>)
    requires |lines| >= 1
    ensures Render(lines) == Join(lines, '\n') + "\n"
  {
    var init := lines[..|lines| - 1];
    if |lines| > 1 {
      RenderJoin(init);
      JoinSnoc(init, lines[|lines| - 1], '\n');
      assert init + [lines[|lines| - 1]] == lines;
    }
  }

  /** The written text is the lines joined by newlines, with one more newline at the end. */
  lemma RenderAsJoin(lines: seq<string>)
    ensures Render(lines) == Join(lines + [""], '\n')
  {
    if lines == [] {
      assert lines + [""] == [""];
    } else {
      RenderJoin(lines);
      JoinSnoc(lines, "", '\n');
    }
  }

  /** Splitting the written text at newlines gives back the lines, and an empty rest after the final newline. */
  lemma RenderSplit(lines: seq<string>)
    requires forall i :: 0 <= i < |lines| ==> '\n' !in lines[i]
    ensures Split(Render(lines), '\n') == lines + [""]
  {
    var parts := lines + [""];
    forall i | 0 <= i < |parts|
      ensures '\n' !in parts[i]
    {
      if i < |lines| {
        assert parts[i] == lines[i];
      }
    }
    JoinSplit(parts, '\n');
    RenderAsJoin(lines);
  }
}
