/**
 * The pure part of `GoesDataSource.getListForRange`: reading the daily GOES
 * event lists into flare events and keeping those at least as strong as a
 * minimum. Fetching the lists (local archive or remote URL) and the cache
 * of parsed days are outside the model: the lists are given as a map from
 * day (midnight, GMT, in milliseconds) to lines, and a day missing from the
 * map is one whose list could not be opened.
 */
module GoesDataSource {
  import opened Results
  import opened JavaStrings
  import opened CalendarUtil
  import G = GoesFlareStrengths

  const HOUR: int := 3_600_000
  const MINUTE: int := 60_000

  /** The text that marks a day without events. */
  const NO_EVENTS := "NO EVENT REPORTS."

  /** The shortest candidate line that holds the strength columns 58 to 61. */
  const MIN_EVENT_LINE: nat := 62

  /** `GoesEvent`: the three times and the strength, named as its fields are. */
  datatype GoesEvent = GoesEvent(startTime: int, maxTime: int, endTime: int, strength: G.Strength)

  /** The `GoesEvent` constructor, whose parameters come in the order start, end, max. */
  function NewEvent(startTime: int, endTime: int, maxTime: int, strength: G.Strength): GoesEvent {
    GoesEvent(startTime, maxTime, endTime, strength)
  }

  /** An event candidate: not empty, not a ':' or '#' comment, not the no-events notice. */
  predicate IsCandidate(line: string) {
    !StartsWith(line, ":") && !StartsWith(line, "#") && |line| > 0 && line != NO_EVENTS
  }

  /**
   * An "HHMM" field set into a copy of the day: the hour and minute are read
   * with `Integer.parseInt` and set leniently, so "2400" is the next midnight
   * and "2460" one o'clock the next day.
   */
  function TimeOfDayField(day: int, hhmm: string): (r: Option<int>)
    requires |hhmm| == 4
    ensures r.Some? <==> ParseInt(hhmm[..2]).Some? && ParseInt(hhmm[2..]).Some?
    ensures r.Some? ==> r.value == day + ParseInt(hhmm[..2]).value * HOUR + ParseInt(hhmm[2..]).value * MINUTE
  {
    var h := ParseInt(hhmm[..2]);
    var m := ParseInt(hhmm[2..]);
    if h.Some? && m.Some? then Some(day + h.value * HOUR + m.value * MINUTE) else None
  }

  /**
   * One event line of at least 62 characters: begin, max and end at columns
   * 11-14, 18-21 and 28-31, the strength at 58-61. `None` when any of them
   * does not parse, which skips the line alone. The event is built with the
   * max time where the constructor expects the end time.
   */
  function ParseEvent(day: int, line: string): (r: Option<GoesEvent>)
    requires |line| >= MIN_EVENT_LINE
  {
    var start := TimeOfDayField(day, line[11..15]);
    var max := TimeOfDayField(day, line[18..22]);
    var end := TimeOfDayField(day, line[28..32]);
    var strength := G.Parse(line[58..62]);
    if start.Some? && max.Some? && end.Some? && strength.Ok? then
      Some(NewEvent(start.value, max.value, end.value, strength.value))
    else None
  }

  /**
   * As written, an event's end time is the peak time of its line and its
   * peak time is the end time of its line.
   */
  lemma EndTimeIsPeak(day: int, line: string)
    requires |line| >= MIN_EVENT_LINE
    requires ParseEvent(day, line).Some?
    ensures var e := ParseEvent(day, line).value;
            e.startTime == TimeOfDayField(day, line[11..15]).value &&
            e.endTime == TimeOfDayField(day, line[18..22]).value &&
            e.maxTime == TimeOfDayField(day, line[28..32]).value &&
            e.strength == G.Parse(line[58..62]).value
  {
  }

  /**
   * The leading 62 characters of a flare line that begins at 10:00, peaks at
   * 10:05 and ends at 10:20, with strength M1.2.
   */
  function SwapExample(): string {
    var lead := "1234  +    ";
    var gap1 := "   ";
    var gap2 := "      ";
    var gap3 := "  G15  5   XRA  1-8A      ";
    lead + "1000" + gap1 + "1005" + gap2 + "1020" + gap3 + "M1.2"
  }

  /** The columns of the example line. */
  lemma SwapColumns()
    ensures |SwapExample()| == MIN_EVENT_LINE
    ensures SwapExample()[11..15] == "1000" && SwapExample()[18..22] == "1005"
    ensures SwapExample()[28..32] == "1020" && SwapExample()[58..62] == "M1.2"
  {
    var lead, gap1, gap2, gap3 := "1234  +    ", "   ", "      ", "  G15  5   XRA  1-8A      ";
    var b, p, e, st := "1000", "1005", "1020", "M1.2";
    var line := SwapExample();
    assert line == lead + b + gap1 + p + gap2 + e + gap3 + st;
    assert line[11..15] == b;
    assert line[18..22] == p;
    assert line[28..32] == e;
    assert line[58..62] == st;
  }

  /** A four-digit clock field "10mm" read on day zero. */
  lemma ClockAtTen(hhmm: string, mm: string, minutes: nat)
    requires hhmm == "10" + mm && |mm| == 2 && AllDigits(mm) && DigitsValue(mm) == minutes
    ensures TimeOfDayField(0, hhmm) == Some(10 * HOUR + minutes * MINUTE)
  {
    assert hhmm[..2] == "10" && hhmm[2..] == mm;
    assert DigitsValue("10") == 10;
  }

  /** Four digits read as a clock: hours from the first two, minutes from the last two. */
  lemma ClockDigits(day: int, hhmm: string)
    requires |hhmm| == 4 && forall i :: 0 <= i < 4 ==> IsDigit(hhmm[i])
    ensures TimeOfDayField(day, hhmm) ==
              Some(day + (10 * DigitValue(hhmm[0]) + DigitValue(hhmm[1])) * HOUR +
                         (10 * DigitValue(hhmm[2]) + DigitValue(hhmm[3])) * MINUTE)
  {
    var hh, mm := hhmm[..2], hhmm[2..];
    assert hh[..1] == [hhmm[0]] && hh[1] == hhmm[1];
    assert mm[..1] == [hhmm[2]] && mm[1] == hhmm[3];
    assert [hhmm[0]][..0] == [] && [hhmm[2]][..0] == [];
    assert DigitsValue([hhmm[0]]) == DigitValue(hhmm[0]);
    assert DigitsValue([hhmm[2]]) == DigitValue(hhmm[2]);
    assert DigitsValue(hh) == 10 * DigitValue(hhmm[0]) + DigitValue(hhmm[1]);
    assert DigitsValue(mm) == 10 * DigitValue(hhmm[2]) + DigitValue(hhmm[3]);
    assert AllDigits(hh) && AllDigits(mm);
  }

  /** A clock reading before 24:00 falls on the day it is read against. */
  lemma ClockWithinDay(day: int, hhmm: string)
    requires day % DAY == 0
    requires |hhmm| == 4 && forall i :: 0 <= i < 4 ==> IsDigit(hhmm[i])
    requires 10 * DigitValue(hhmm[0]) + DigitValue(hhmm[1]) < 24
    requires 10 * DigitValue(hhmm[2]) + DigitValue(hhmm[3]) < 60
    ensures TimeOfDayField(day, hhmm).Some?
    ensures day <= TimeOfDayField(day, hhmm).value < day + DAY
    ensures DateResolution(TimeOfDayField(day, hhmm).value) == day
  {
    ClockDigits(day, hhmm);
    DateResolutionOfDay(TimeOfDayField(day, hhmm).value, day);
  }

  /** Setting is lenient: "2400" is the next midnight and "2460" one o'clock the next day. */
  lemma ClockLenient(day: int)
    ensures TimeOfDayField(day, "2400") == Some(day + DAY)
    ensures TimeOfDayField(day, "2460") == Some(day + DAY + HOUR)
  {
    ClockDigits(day, "2400");
    ClockDigits(day, "2460");
  }

  /**
   * A field holding anything but digits, apart from a sign leading the hours
   * or the minutes, does not parse, and the line is skipped.
   */
  lemma ClockRejects(day: int, hhmm: string, i: nat)
    requires |hhmm| == 4 && i < 4 && !IsDigit(hhmm[i])
    requires !((i == 0 || i == 2) && (hhmm[i] == '+' || hhmm[i] == '-'))
    ensures TimeOfDayField(day, hhmm).None?
  {
    if i < 2 {
      assert hhmm[..2][i] == hhmm[i];
    } else {
      assert hhmm[2..][i - 2] == hhmm[i];
    }
  }

  /** On a real flare line the as-written end time comes before the line's end time. */
  lemma EndTimeIsPeakExample()
    ensures |SwapExample()| == MIN_EVENT_LINE
    ensures ParseEvent(0, SwapExample()).Some?
    ensures ParseEvent(0, SwapExample()).value.endTime == 10 * HOUR + 5 * MINUTE
    ensures ParseEvent(0, SwapExample()).value.endTime < TimeOfDayField(0, SwapExample()[28..32]).value
  {
    SwapColumns();
    ClockAtTen("1000", "00", 0);
    ClockAtTen("1005", "05", 5);
    ClockAtTen("1020", "20", 20);
    var st := "M1.2";
    assert st[..1] == "M" && st[1..4] == "1.2";
  }

  /** The evidently intended event: each time taken from its own column. */
  function ParseEventIntended(day: int, line: string): (r: Option<GoesEvent>)
    requires |line| >= MIN_EVENT_LINE
    ensures r.Some? <==> ParseEvent(day, line).Some?
    ensures r.Some? ==> r.value.endTime == TimeOfDayField(day, line[28..32]).value
    ensures r.Some? ==> r.value.maxTime == TimeOfDayField(day, line[18..22]).value
    ensures r.Some? ==> r.value.startTime == ParseEvent(day, line).value.startTime &&
                        r.value.strength == ParseEvent(day, line).value.strength
  {
    var start := TimeOfDayField(day, line[11..15]);
    var max := TimeOfDayField(day, line[18..22]);
    var end := TimeOfDayField(day, line[28..32]);
    var strength := G.Parse(line[58..62]);
    if start.Some? && max.Some? && end.Some? && strength.Ok? then
      Some(NewEvent(start.value, end.value, max.value, strength.value))
    else None
  }

  /** A candidate line too short for the strength columns: it throws outside the per-line try. */
  predicate Aborts(line: string) {
    IsCandidate(line) && |line| < MIN_EVENT_LINE
  }

  /** The line yields an event. */
  predicate Yields(day: int, line: string, e: GoesEvent) {
    IsCandidate(line) && |line| >= MIN_EVENT_LINE && ParseEvent(day, line) == Some(e)
  }

  /**
   * The events of one day's list, in line order. `None` when some candidate
   * line is shorter than 62 characters (`DayEventsNone`): the whole day is
   * then dropped and nothing is cached for it.
   */
  function DayEvents(day: int, lines: seq<string>): (r: Option<seq<GoesEvent>>)
    ensures r.Some? ==> |r.value| <= |lines|
  {
    if |lines| == 0 then Some([])
    else
      var rest := DayEvents(day, lines[1..]);
      if Aborts(lines[0]) then None
      else if rest.None? then None
      else if IsCandidate(lines[0]) && ParseEvent(day, lines[0]).Some? then
        Some([ParseEvent(day, lines[0]).value] + rest.value)
      else rest
  }

  /** A day's list is dropped exactly when one of its candidate lines is too short. */
  lemma {:induction false} DayEventsNone(day: int, lines: seq<string>)
    ensures DayEvents(day, lines).None? <==> exists i :: 0 <= i < |lines| && Aborts(lines[i])
  {
    if |lines| > 0 {
      DayEventsNone(day, lines[1..]);
      if exists i :: 0 <= i < |lines| && Aborts(lines[i]) {
        var i :| 0 <= i < |lines| && Aborts(lines[i]);
        if i > 0 { assert lines[1..][i - 1] == lines[i]; }
      }
      if exists i :: 0 <= i < |lines[1..]| && Aborts(lines[1..][i]) {
        var i :| 0 <= i < |lines[1..]| && Aborts(lines[1..][i]);
        assert lines[i + 1] == lines[1..][i];
      }
    }
  }

  /** A day's events are exactly the events its lines yield. */
  lemma {:induction false} DayEventsExact(day: int, lines: seq<string>, e: GoesEvent)
    requires DayEvents(day, lines).Some?
    ensures e in DayEvents(day, lines).value <==> exists i :: 0 <= i < |lines| && Yields(day, lines[i], e)
  {
    if |lines| > 0 {
      DayEventsExact(day, lines[1..], e);
      if exists i :: 0 <= i < |lines| && Yields(day, lines[i], e) {
        var i :| 0 <= i < |lines| && Yields(day, lines[i], e);
        if i > 0 { assert lines[1..][i - 1] == lines[i]; }
      }
      if exists i :: 0 <= i < |lines[1..]| && Yields(day, lines[1..][i], e) {
        var i :| 0 <= i < |lines[1..]| && Yields(day, lines[1..][i], e);
        assert lines[i + 1] == lines[1..][i];
      }
    }
  }

  /** Lines read in two parts give the two parts' events one after the other. */
  lemma {:induction false} DayEventsAppend(day: int, a: seq<string>, b: seq<string>)
    requires DayEvents(day, a).Some? && DayEvents(day, b).Some?
    ensures DayEvents(day, a + b) == Some(DayEvents(day, a).value + DayEvents(day, b).value)
  {
    if |a| == 0 {
      assert a + b == b;
      assert DayEvents(day, a).value == [];
      assert [] + DayEvents(day, b).value == DayEvents(day, b).value;
    } else {
      assert (a + b)[1..] == a[1..] + b;
      assert (a + b)[0] == a[0];
      assert !Aborts(a[0]) && DayEvents(day, a[1..]).Some?;
      DayEventsAppend(day, a[1..], b);
      var tail := DayEvents(day, a[1..]).value;
      var other := DayEvents(day, b).value;
      if IsCandidate(a[0]) && ParseEvent(day, a[0]).Some? {
        var head := [ParseEvent(day, a[0]).value];
        assert DayEvents(day, a).value == head + tail;
        assert DayEvents(day, a + b).value == head + (tail + other);
        assert head + (tail + other) == (head + tail) + other;
      } else {
        assert DayEvents(day, a).value == tail;
        assert DayEvents(day, a + b).value == tail + other;
      }
    }
  }

  /** The events a day contributes: none when its list cannot be opened or its parse aborts. */
  function DayContribution(day: int, archive: map<int, seq<string>>): seq<GoesEvent> {
    if day in archive && DayEvents(day, archive[day]).Some? then DayEvents(day, archive[day]).value else []
  }

  /** The event comes from one of the days. */
  predicate InSomeDay(e: GoesEvent, days: seq<int>, archive: map<int, seq<string>>) {
    exists k :: 0 <= k < |days| && e in DayContribution(days[k], archive)
  }

  /** The events of the days in order, each day's events after the previous day's. */
  function CollectDays(days: seq<int>, archive: map<int, seq<string>>): (r: seq<GoesEvent>)
    ensures |days| > 0 ==> r == DayContribution(days[0], archive) + CollectDays(days[1..], archive)
  {
    if |days| == 0 then [] else DayContribution(days[0], archive) + CollectDays(days[1..], archive)
  }

  /** The collected events are exactly the events of the listed days. */
  lemma {:induction false} CollectDaysMembers(days: seq<int>, archive: map<int, seq<string>>, e: GoesEvent)
    ensures e in CollectDays(days, archive) <==> InSomeDay(e, days, archive)
  {
    if |days| > 0 {
      CollectDaysMembers(days[1..], archive, e);
      if InSomeDay(e, days, archive) {
        var k :| 0 <= k < |days| && e in DayContribution(days[k], archive);
        if k > 0 { assert days[1..][k - 1] == days[k]; }
      }
      if InSomeDay(e, days[1..], archive) {
        var k :| 0 <= k < |days[1..]| && e in DayContribution(days[1..][k], archive);
        assert days[k + 1] == days[1..][k];
      }
    }
  }

  /** The event is at least as strong as the minimum (always, when there is no minimum). */
  predicate StrongEnough(e: GoesEvent, minimum: Option<G.Strength>) {
    G.CompareTo(e.strength, minimum) >= 0
  }

  /** Reference definition of the strength filter: the strong enough events, in order. */
  function KeepStrong(events: seq<GoesEvent>, minimum: Option<G.Strength>): (r: seq<GoesEvent>)
    ensures |r| <= |events|
  {
    if |events| == 0 then []
    else (if StrongEnough(events[0], minimum) then [events[0]] else []) + KeepStrong(events[1..], minimum)
  }

  /** The filter keeps exactly the strong enough events. */
  lemma {:induction false} KeepStrongMembers(events: seq<GoesEvent>, minimum: Option<G.Strength>, e: GoesEvent)
    ensures e in KeepStrong(events, minimum) <==> e in events && StrongEnough(e, minimum)
  {
    if |events| > 0 {
      KeepStrongMembers(events[1..], minimum, e);
      assert e in events <==> e == events[0] || e in events[1..];
    }
  }

  /** One event is kept exactly when it is strong enough. */
  lemma KeepStrongSingle(x: GoesEvent, minimum: Option<G.Strength>)
    ensures KeepStrong([x], minimum) == if StrongEnough(x, minimum) then [x] else []
  {
    assert [x][1..] == [];
  }

  /** Filtering two lists one after the other is filtering their concatenation: the order is kept. */
  lemma {:induction false} KeepStrongAppend(a: seq<GoesEvent>, b: seq<GoesEvent>, minimum: Option<G.Strength>)
    ensures KeepStrong(a + b, minimum) == KeepStrong(a, minimum) + KeepStrong(b, minimum)
  {
    if |a| == 0 {
      assert a + b == b;
    } else {
      assert (a + b)[1..] == a[1..] + b;
      assert (a + b)[0] == a[0];
      var h := if StrongEnough(a[0], minimum) then [a[0]] else [];
      KeepStrongAppend(a[1..], b, minimum);
      assert KeepStrong(a + b, minimum) == h + KeepStrong(a[1..] + b, minimum);
      assert KeepStrong(a, minimum) == h + KeepStrong(a[1..], minimum);
    }
  }

  /** Without a minimum nothing is removed. */
  lemma {:induction false} KeepStrongNoMinimum(events: seq<GoesEvent>)
    ensures KeepStrong(events, None) == events
  {
    if |events| > 0 {
      KeepStrongNoMinimum(events[1..]);
    }
  }

  /**
   * The removal loop of `getListForRange`: every event weaker than the
   * minimum is removed, the rest keep their order.
   */
  method RemoveWeak(events: seq<GoesEvent>, minimum: Option<G.Strength>) returns (kept: seq<GoesEvent>)
    ensures kept == KeepStrong(events, minimum)
  {
    kept := [];
    var i := 0;
    while i < |events|
      invariant 0 <= i <= |events|
      invariant kept == KeepStrong(events[..i], minimum)
    {
      KeepStrongAppend(events[..i], [events[i]], minimum);
      KeepStrongSingle(events[i], minimum);
      assert events[..i + 1] == events[..i] + [events[i]];
      if StrongEnough(events[i], minimum) {
        kept := kept + [events[i]];
      }
      i := i + 1;
    }
    assert events[..|events|] == events;
  }

  /**
   * `getListForRange`: the events of every day from the start's day up to
   * the end, day by day in order, without those weaker than the minimum.
   */
  method GetListForRange(start: int, end: int, minimum: Option<G.Strength>, archive: map<int, seq<string>>)
    returns (events: seq<GoesEvent>)
    ensures events == KeepStrong(CollectDays(DaysInRange(start, end), archive), minimum)
    ensures forall e :: e in events <==>
              StrongEnough(e, minimum) && InSomeDay(e, DaysInRange(start, end), archive)
  {
    var days := DaysInRange(start, end);
    var all := CollectDays(days, archive);
    events := RemoveWeak(all, minimum);
    forall e ensures e in events <==> StrongEnough(e, minimum) && InSomeDay(e, days, archive) {
      KeepStrongMembers(all, minimum, e);
      CollectDaysMembers(days, archive, e);
    }
  }

  /** Filtering day by day gives the same list: each day's strong events follow the previous day's. */
  lemma {:induction false} FilterByDay(days: seq<int>, archive: map<int, seq<string>>, minimum: Option<G.Strength>)
    requires |days| > 0
    ensures KeepStrong(CollectDays(days, archive), minimum) ==
              KeepStrong(DayContribution(days[0], archive), minimum) + KeepStrong(CollectDays(days[1..], archive), minimum)
  {
    KeepStrongAppend(DayContribution(days[0], archive), CollectDays(days[1..], archive), minimum);
  }
}
