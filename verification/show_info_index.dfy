/**
 * The index that asks the DRMS `show_info` program for its records. Running
 * the program and its caches are outside the model; what is modelled is the
 * logic around them: the constructor's parameter checks, the lookup of a
 * column by the name in the response's header line, the one-week guard of
 * the range queries, the monitor matching of `hasFilesInRange` and the SQL
 * filter built from a monitor collection. The program's response is a
 * parameter: its lines, or `None` when it could not be run or read.
 */
module ShowInfoIndex {
  import opened Results
  import opened JavaStrings
  import opened CalendarUtil
  import Monitors

  /** Why an operation of this index throws. */
  datatype Failure = RangeLongerThanWeek | NoExecutable

  /**
   * The series name every instance starts with. The range queries' command
   * template is built from this value once, when the class is loaded, so a
   * later "data-series-id" parameter reaches only the queries that read the
   * shared name afresh, never the range queries.
   */
  const DEFAULT_DATA_SERIES := "sid_awe.sid"

  datatype ShowInfo = ShowInfo(executable: string)

  /**
   * The constructor. The series name is shared by every instance: a
   * "data-series-id" parameter replaces it before anything is checked, so it
   * does so even when the constructor then throws for want of a
   * "show_info-executable" parameter. Returns the new series name and the
   * instance.
   */
  function New(params: map<string, string>, series: string): (r: (string, Result<ShowInfo, Failure>))
    ensures "data-series-id" in params ==> r.0 == params["data-series-id"]
    ensures "data-series-id" !in params ==> r.0 == series
    ensures r.1.Ok? <==> "show_info-executable" in params
    ensures r.1.Ok? ==> r.1.value.executable == params["show_info-executable"]
    ensures r.1.Err? ==> r.1.error == NoExecutable
  {
    var series' := if "data-series-id" in params then params["data-series-id"] else series;
    if "show_info-executable" in params then (series', Ok(ShowInfo(params["show_info-executable"])))
    else (series', Err(NoExecutable))
  }

  /** `isUpdateComplete`: the database behind `show_info` is always up to date. */
  function IsUpdateComplete(s: ShowInfo): (r: bool)
    ensures r
  {
    true
  }

  // ---------------------------------------------------------------------------
  // Header columns

  /** `ShowInfoLinePositions`: the tab-separated column names of the header line. */
  function Positions(header: string): seq<string> {
    Split(header, {'\t'})
  }

  /** `getIndexOf`: the position of the first column called `id`, or -1. */
  function GetIndexOf(header: string, id: string): (i: int)
    ensures -1 <= i < |Positions(header)|
    ensures i == -1 <==> id !in Positions(header)
    ensures i >= 0 ==> Positions(header)[i] == id
    ensures forall j :: 0 <= j < i ==> Positions(header)[j] != id
  {
    IndexOf(Positions(header), id)
  }

  predicate NoTab(s: string) {
    forall i :: 0 <= i < |s| ==> s[i] != '\t'
  }

  /**
   * A header written as tab-separated column names (the last one not empty)
   * is read back as exactly those names, so a column is found at the first
   * position holding its name.
   */
  lemma HeaderRoundTrip(cols: seq<string>, id: string)
    requires |cols| > 0 && cols[|cols| - 1] != ""
    requires forall k :: 0 <= k < |cols| ==> NoTab(cols[k])
    ensures Positions(Join(cols, '\t')) == cols
    ensures GetIndexOf(Join(cols, '\t'), id) == IndexOf(cols, id)
  {
    assert forall k, i :: 0 <= k < |cols| && 0 <= i < |cols[k]| ==> cols[k][i] != '\t' by {
      forall k, i | 0 <= k < |cols| && 0 <= i < |cols[k]| ensures cols[k][i] != '\t' {
        assert NoTab(cols[k]);
      }
    }
    RawSplitJoin(cols, '\t');
  }

  /** `parts[positions.getIndexOf(key)]`; `None` where Java throws an index-out-of-bounds exception. */
  function Column(header: string, parts: seq<string>, key: string): Option<string> {
    var i := GetIndexOf(header, key);
    if 0 <= i < |parts| then Some(parts[i]) else None
  }

  // ---------------------------------------------------------------------------
  // The range guard

  /**
   * Both range queries first throw when seven days after the start is still
   * before the end, that is when the range is longer than a week.
   */
  function WeekGuard(start: int, end: int): (r: Result<(), Failure>)
    ensures r.Err? <==> end - start > 7 * DAY
    ensures r.Err? ==> r.error == RangeLongerThanWeek
  {
    if AddDays(start, 7) < end then Err(RangeLongerThanWeek) else Ok(())
  }

  // ---------------------------------------------------------------------------
  // hasFilesInRange

  /**
   * The identifier `hasFilesInRange` builds from one response line: monitor,
   * site and station joined by '$'. `None` when a column is missing, which
   * throws inside the per-line try and skips the line.
   */
  function LineIdentifier(header: string, line: string): (r: Option<string>) {
    var parts := Split(line, {'\t'});
    var monitor := Column(header, parts, "MonitorID");
    var site := Column(header, parts, "Site");
    var station := Column(header, parts, "StationID");
    if monitor.Some? && site.Some? && station.Some? then
      Some(monitor.value + "$" + site.value + "$" + station.value)
    else None
  }

  /** `monitorCollectionContains`: some monitor, in order, accepts the identifier. */
  function MonitorCollectionContains(ms: seq<Monitors.MonitorInfo>, id: string): (r: bool)
    ensures r <==> exists i :: 0 <= i < |ms| && Monitors.EqualsIdentifier(ms[i], id)
  {
    if |ms| == 0 then false
    else if Monitors.EqualsIdentifier(ms[0], id) then true
    else
      var r := MonitorCollectionContains(ms[1..], id);
      assert r ==> exists i :: 0 <= i < |ms| && Monitors.EqualsIdentifier(ms[i], id) by {
        if r {
          var i :| 0 <= i < |ms[1..]| && Monitors.EqualsIdentifier(ms[1..][i], id);
          assert ms[i + 1] == ms[1..][i];
        }
      }
      r
  }

  /**
   * One line of the response matches. A null monitor collection throws in
   * the loop over it, inside the per-line try, so no line matches.
   */
  predicate LineMatches(header: string, line: string, ms: Option<seq<Monitors.MonitorInfo>>) {
    var id := LineIdentifier(header, line);
    id.Some? && ms.Some? && MonitorCollectionContains(ms.value, id.value)
  }

  /** Some line of `lines` (after the header) matches. */
  predicate AnyLineMatches(header: string, lines: seq<string>, ms: Option<seq<Monitors.MonitorInfo>>) {
    exists i :: 0 <= i < |lines| && LineMatches(header, lines[i], ms)
  }

  /**
   * `hasFilesInRange`: after the week guard, true as soon as a line of the
   * response names a requested monitor. A response that cannot be had, or
   * has no header line, gives false.
   */
  function HasFilesInRange(start: int, end: int, ms: Option<seq<Monitors.MonitorInfo>>,
                           response: Option<seq<string>>): (r: Result<bool, Failure>)
    ensures r.Err? <==> end - start > 7 * DAY
    ensures r == Ok(true) <==>
              end - start <= 7 * DAY && response.Some? && |response.value| > 0 &&
              AnyLineMatches(response.value[0], response.value[1..], ms)
  {
    if WeekGuard(start, end).Err? then Err(RangeLongerThanWeek)
    else if response.None? || |response.value| == 0 then Ok(false)
    else Ok(AnyLineMatches(response.value[0], response.value[1..], ms))
  }

  /** A line as `Scanner.nextLine` returns it: no line terminator inside. */
  predicate ScannerLine(s: string) {
    forall i :: 0 <= i < |s| ==> !Monitors.IsLineTerminator(s[i])
  }

  /** Every character of a piece of a split occurs in the split string. */
  lemma {:induction false} RawSplitChars(s: string, delims: set<char>, k: nat, i: nat)
    requires k < |RawSplit(s, delims)| && i < |RawSplit(s, delims)[k]|
    ensures RawSplit(s, delims)[k][i] in s
  {
    var r := RawSplit(s, delims);
    if |s| > 0 {
      var rest := RawSplit(s[1..], delims);
      if s[0] in delims {
        assert r[k] == rest[k - 1];
        RawSplitChars(s[1..], delims, k - 1, i);
      } else if k == 0 {
        if i > 0 {
          assert r[0][i] == rest[0][i - 1];
          RawSplitChars(s[1..], delims, 0, i - 1);
        }
      } else {
        assert r[k] == rest[k];
        RawSplitChars(s[1..], delims, k, i);
      }
    }
  }

  /** The pieces of a scanner line are scanner lines. */
  lemma SplitKeepsScannerLine(s: string, k: nat)
    requires ScannerLine(s)
    requires k < |Split(s, {'\t'})|
    ensures ScannerLine(Split(s, {'\t'})[k])
  {
    var raw := RawSplit(s, {'\t'});
    assert Split(s, {'\t'})[k] == raw[k];
    forall i | 0 <= i < |raw[k]| ensures !Monitors.IsLineTerminator(raw[k][i]) {
      RawSplitChars(s, {'\t'}, k, i);
    }
  }

  /** The identifier built from a scanner line holds no line terminator. */
  lemma LineIdentifierScannerLine(header: string, line: string)
    requires ScannerLine(line)
    requires LineIdentifier(header, line).Some?
    ensures ScannerLine(LineIdentifier(header, line).value)
  {
    var parts := Split(line, {'\t'});
    SplitKeepsScannerLine(line, GetIndexOf(header, "MonitorID"));
    SplitKeepsScannerLine(line, GetIndexOf(header, "Site"));
    SplitKeepsScannerLine(line, GetIndexOf(header, "StationID"));
  }

  /**
   * As written, `hasFilesInRange` never answers true: the identifier of a
   * scanner line holds no line terminator, and `equalsIdentifier` accepts no
   * such identifier.
   */
  lemma HasFilesInRangeNeverTrue(start: int, end: int, ms: Option<seq<Monitors.MonitorInfo>>,
                                 response: Option<seq<string>>)
    requires response.Some? ==> forall i :: 0 <= i < |response.value| ==> ScannerLine(response.value[i])
    ensures HasFilesInRange(start, end, ms, response) != Ok(true)
  {
    if response.Some? && |response.value| > 0 {
      var header := response.value[0];
      var lines := response.value[1..];
      forall i | 0 <= i < |lines| ensures !LineMatches(header, lines[i], ms) {
        assert lines[i] == response.value[i + 1];
        var id := LineIdentifier(header, lines[i]);
        if id.Some? && ms.Some? {
          LineIdentifierScannerLine(header, lines[i]);
          forall j | 0 <= j < |ms.value| ensures !Monitors.EqualsIdentifier(ms.value[j], id.value) {
            Monitors.EqualsIdentifierOnlyTerminatorSites(ms.value[j], id.value);
          }
        }
      }
    }
  }

  /** The identifier check the method evidently intends, with '$' as the separator. */
  function MonitorCollectionContainsIntended(ms: seq<Monitors.MonitorInfo>, id: string): (r: bool)
    ensures r <==> exists i :: 0 <= i < |ms| && Monitors.EqualsIdentifierIntended(ms[i], id)
  {
    if |ms| == 0 then false
    else if Monitors.EqualsIdentifierIntended(ms[0], id) then true
    else
      var r := MonitorCollectionContainsIntended(ms[1..], id);
      assert r ==> exists i :: 0 <= i < |ms| && Monitors.EqualsIdentifierIntended(ms[i], id) by {
        if r {
          var i :| 0 <= i < |ms[1..]| && Monitors.EqualsIdentifierIntended(ms[1..][i], id);
          assert ms[i + 1] == ms[1..][i];
        }
      }
      r
  }

  /**
   * With the intended check, a line whose monitor, site and station hold no
   * '$' (and whose site is not empty) matches exactly when a requested
   * monitor equals the line's monitor.
   */
  lemma LineMatchesIntended(ms: seq<Monitors.MonitorInfo>, monitor: string, site: string, station: string)
    requires Monitors.NoDollar(monitor) && Monitors.NoDollar(site) && Monitors.NoDollar(station)
    requires site != ""
    ensures MonitorCollectionContainsIntended(ms, monitor + "$" + site + "$" + station) <==>
              exists i :: 0 <= i < |ms| && Monitors.Equals(ms[i], Monitors.FromIds(Some(site), Some(monitor), Some(station)))
  {
    var b := Monitors.FromIds(Some(site), Some(monitor), Some(station));
    assert Monitors.Identifier(b) == monitor + "$" + site + "$" + station;
    forall i | 0 <= i < |ms|
      ensures Monitors.EqualsIdentifierIntended(ms[i], Monitors.Identifier(b)) <==> Monitors.Equals(ms[i], b)
    {
      Monitors.EqualsIdentifierIntendedCorrect(ms[i], b);
    }
  }

  // ---------------------------------------------------------------------------
  // generateMonitorFilter

  /** `s` written `k` times over. */
  function Repeat(s: string, k: nat): (r: string)
    ensures |r| == k * |s|
  {
    if k == 0 then "" else s + Repeat(s, k - 1)
  }

  /** Copy `q` of `s` in the repetition starts at position `q * |s|`. */
  lemma {:induction false} RepeatAt(s: string, k: nat, q: nat, j: nat)
    requires q < k && j < |s|
    ensures q * |s| + j < |Repeat(s, k)| && Repeat(s, k)[q * |s| + j] == s[j]
  {
    var rest := Repeat(s, k - 1);
    assert Repeat(s, k) == s + rest;
    if q > 0 {
      RepeatAt(s, k - 1, q - 1, j);
      assert q * |s| + j == |s| + ((q - 1) * |s| + j);
    }
  }

  /** The k-th candidate string separator: "$" + "string" repeated k times + "$". */
  function Separator(k: nat): (r: string)
    ensures |r| == 6 * k + 2
  {
    "$" + Repeat("string", k) + "$"
  }

  /**
   * The k-th separator opens and closes with "$", and between them copy `q`
   * of "string" starts at position 1 + 6q.
   */
  lemma SeparatorText(k: nat, q: nat, j: nat)
    requires q < k && j < 6
    ensures Separator(k)[0] == '$' && Separator(k)[6 * k + 1] == '$'
    ensures Separator(k)[1 + 6 * q + j] == "string"[j]
  {
    RepeatAt("string", k, q, j);
    var r := Repeat("string", k);
    assert Separator(k)[1 + 6 * q + j] == r[6 * q + j];
  }

  /** Some present field of the monitor contains `sep`. */
  predicate FieldContains(m: Monitors.MonitorInfo, sep: string) {
    (m.site.Some? && Contains(m.site.value, sep)) ||
    (m.station.Some? && Contains(m.station.value, sep)) ||
    (m.monitor.Some? && Contains(m.monitor.value, sep))
  }

  /** Some monitor of the collection has a field containing `sep`. */
  predicate Clashes(ms: seq<Monitors.MonitorInfo>, sep: string) {
    exists i :: 0 <= i < |ms| && FieldContains(ms[i], sep)
  }

  predicate AllComplete(ms: seq<Monitors.MonitorInfo>) {
    forall i :: 0 <= i < |ms| ==> Monitors.Complete(ms[i])
  }

  function FieldLength(x: Option<string>): nat {
    if x.Some? then |x.value| else 0
  }

  /** The total length of the collection's fields: no longer separator can clash. */
  function FieldBound(ms: seq<Monitors.MonitorInfo>): nat {
    if |ms| == 0 then 0
    else FieldLength(ms[0].site) + FieldLength(ms[0].station) + FieldLength(ms[0].monitor) + FieldBound(ms[1..])
  }

  /**
   * The test of one monitor in the search loop: site, then station, then
   * monitor, stopping at the first that contains `sep`. `None` where a null
   * field is dereferenced.
   */
  function MonitorClash(m: Monitors.MonitorInfo, sep: string): (r: Option<bool>)
    ensures r == Some(true) ==>
              (FieldContains(m, sep) && |sep| <= FieldLength(m.site) + FieldLength(m.station) + FieldLength(m.monitor))
    ensures r == Some(false) <==> Monitors.Complete(m) && !FieldContains(m, sep)
    ensures Monitors.Complete(m) ==> r.Some?
  {
    if m.site.None? then None
    else if Contains(m.site.value, sep) then Some(true)
    else if m.station.None? then None
    else if Contains(m.station.value, sep) then Some(true)
    else if m.monitor.None? then None
    else Some(Contains(m.monitor.value, sep))
  }

  /** One pass of the search loop: every monitor is tested, even after a clash. */
  function ScanMonitors(ms: seq<Monitors.MonitorInfo>, sep: string): (r: Option<bool>)
    ensures r == Some(true) ==> Clashes(ms, sep) && |sep| <= FieldBound(ms)
    ensures r == Some(false) ==> AllComplete(ms) && !Clashes(ms, sep)
    ensures AllComplete(ms) ==> r.Some?
  {
    if |ms| == 0 then Some(false)
    else
      var head := MonitorClash(ms[0], sep);
      var rest := ScanMonitors(ms[1..], sep);
      assert Clashes(ms[1..], sep) ==> Clashes(ms, sep) by {
        if Clashes(ms[1..], sep) {
          var i :| 0 <= i < |ms[1..]| && FieldContains(ms[1..][i], sep);
          assert ms[i + 1] == ms[1..][i];
        }
      }
      assert AllComplete(ms[1..]) && Monitors.Complete(ms[0]) ==> AllComplete(ms) by {
        if AllComplete(ms[1..]) && Monitors.Complete(ms[0]) {
          forall i | 0 <= i < |ms| ensures Monitors.Complete(ms[i]) {
            if i > 0 { assert ms[i] == ms[1..][i - 1]; }
          }
        }
      }
      assert !Clashes(ms[1..], sep) && !FieldContains(ms[0], sep) ==> !Clashes(ms, sep) by {
        if !Clashes(ms[1..], sep) && !FieldContains(ms[0], sep) {
          forall i | 0 <= i < |ms| ensures !FieldContains(ms[i], sep) {
            if i > 0 { assert ms[i] == ms[1..][i - 1]; }
          }
        }
      }
      assert AllComplete(ms) ==> Monitors.Complete(ms[0]) && AllComplete(ms[1..]);
      if head.None? || rest.None? then None
      else Some(head.value || rest.value)
  }

  /**
   * The search loop, from candidate `k` on: the first separator no field
   * contains. `None` when a null field is dereferenced.
   */
  function FindSeparator(ms: seq<Monitors.MonitorInfo>, k: nat): (r: Option<nat>)
    ensures r.Some? <==> AllComplete(ms)
    ensures r.Some? ==> r.value >= k && !Clashes(ms, Separator(r.value))
    ensures r.Some? ==> forall j :: k <= j < r.value ==> Clashes(ms, Separator(j))
    decreases FieldBound(ms) + 6 - 6 * k
  {
    match ScanMonitors(ms, Separator(k))
    case None => None
    case Some(clash) =>
      if clash then FindSeparator(ms, k + 1) else Some(k)
  }

  /**
   * The separator `generateMonitorFilter` settles on: "$" + "string" repeated
   * the least k >= 1 times + "$" that occurs in no monitor's site, station or
   * monitor. The search always ends; it throws only on a null field.
   */
  function SafeSeparator(ms: seq<Monitors.MonitorInfo>): (r: Option<string>)
    ensures r.Some? <==> AllComplete(ms)
    ensures r.Some? ==> exists k :: k >= 1 && r.value == Separator(k) &&
                          !Clashes(ms, Separator(k)) &&
                          forall j :: 1 <= j < k ==> Clashes(ms, Separator(j))
  {
    var k := FindSeparator(ms, 1);
    if k.Some? then Some(Separator(k.value)) else None
  }

  /** `equalsIgnoreCase("multiple")`, with ASCII case folding. */
  predicate IsMultiple(station: string) {
    ToLower(station) == "multiple"
  }

  const MONITOR_TEST := "MonitorID="
  const SITE_TEST := " AND Site="
  const STATION_TEST := " AND StationID="

  /** The condition for one monitor, without the parentheses around it. */
  function Clause(m: Monitors.MonitorInfo, ss: string): string
    requires Monitors.Complete(m)
  {
    MONITOR_TEST + ss + m.monitor.value + SiteTest(m, ss) + StationTest(m, ss) + ss
  }

  /** The Site test. */
  function SiteTest(m: Monitors.MonitorInfo, ss: string): string
    requires Monitors.Complete(m)
  {
    ss + SITE_TEST + ss + m.site.value
  }

  /** The StationID test, left out for a "multiple" station. */
  function StationTest(m: Monitors.MonitorInfo, ss: string): string
    requires Monitors.Complete(m)
  {
    if IsMultiple(m.station.value) then "" else ss + STATION_TEST + ss + m.station.value
  }

  const OPEN := "("
  const CLOSE := ")"
  const CLOSE_OR := ") OR "

  /** Every monitor but the last in parentheses followed by " OR ", then the last and the closing parenthesis. */
  function Clauses(ms: seq<Monitors.MonitorInfo>, ss: string): string
    requires |ms| > 0 && AllComplete(ms)
  {
    if |ms| == 1 then Clause(ms[0], ss) + CLOSE
    else OPEN + Clause(ms[0], ss) + CLOSE_OR + Clauses(ms[1..], ss)
  }

  /**
   * `generateMonitorFilter`: "" for no monitors, otherwise " WHERE (" (for a
   * query of its own) or " AND (" followed by the monitors' conditions.
   * `None` where a null monitor field throws.
   */
  function GenerateMonitorFilter(ms: seq<Monitors.MonitorInfo>, solo: bool): (r: Option<string>)
    ensures r.Some? <==> AllComplete(ms)
    ensures |ms| == 0 ==> r == Some("")
    ensures r.Some? && |ms| > 0 ==> StartsWith(r.value, if solo then " WHERE (" else " AND (")
  {
    var ss := SafeSeparator(ms);
    if ss.None? then None
    else if |ms| == 0 then Some("")
    else
      var head := if solo then " WHERE" else " AND";
      var r := head + " (" + Clauses(ms, ss.value);
      assert r[..|head + " ("|] == head + " (";
      Some(r)
  }

  /** The number of times `c` occurs in `s`. */
  function Occurrences(s: string, c: char): nat {
    if |s| == 0 then 0 else (if s[0] == c then 1 else 0) + Occurrences(s[1..], c)
  }

  lemma {:induction false} OccurrencesAppend(a: string, b: string, c: char)
    ensures Occurrences(a + b, c) == Occurrences(a, c) + Occurrences(b, c)
  {
    if |a| > 0 {
      assert (a + b)[0] == a[0] && (a + b)[1..] == a[1..] + b;
      OccurrencesAppend(a[1..], b, c);
    } else {
      assert a + b == b;
    }
  }

  /** `s` holds `open` '(', `close` ')' and `equals` '='. */
  predicate Counts(s: string, open: int, close: int, equals: int) {
    Occurrences(s, '(') == open && Occurrences(s, ')') == close && Occurrences(s, '=') == equals
  }

  /** Counts add up over a concatenation. */
  lemma CountsAppend(a: string, b: string, ao: int, ac: int, ae: int, bo: int, bc: int, be: int)
    requires Counts(a, ao, ac, ae) && Counts(b, bo, bc, be)
    ensures Counts(a + b, ao + bo, ac + bc, ae + be)
  {
    OccurrencesAppend(a, b, '(');
    OccurrencesAppend(a, b, ')');
    OccurrencesAppend(a, b, '=');
  }

  /** The text holds no parenthesis and no '='. */
  predicate Plain(s: string) {
    forall i :: 0 <= i < |s| ==> s[i] != '(' && s[i] != ')' && s[i] != '='
  }

  predicate PlainMonitor(m: Monitors.MonitorInfo) {
    Monitors.Complete(m) && Plain(m.site.value) && Plain(m.monitor.value) && Plain(m.station.value)
  }

  /** The number of StationID tests in a monitor's condition: none for a "multiple" station. */
  function StationTests(m: Monitors.MonitorInfo): nat
    requires Monitors.Complete(m)
  {
    if IsMultiple(m.station.value) then 0 else 1
  }

  /** The number of monitors whose station is not "multiple". */
  function StationClauses(ms: seq<Monitors.MonitorInfo>): nat
    requires AllComplete(ms)
  {
    if |ms| == 0 then 0 else StationTests(ms[0]) + StationClauses(ms[1..])
  }

  lemma {:induction false} PlainCounts(s: string)
    requires Plain(s)
    ensures Counts(s, 0, 0, 0)
  {
    if |s| > 0 {
      assert Plain(s[1..]) by {
        forall i | 0 <= i < |s[1..]| ensures s[1..][i] != '(' && s[1..][i] != ')' && s[1..][i] != '=' {
          assert s[1..][i] == s[i + 1];
        }
      }
      PlainCounts(s[1..]);
    }
  }

  lemma {:induction false} RepeatPlain(k: nat)
    ensures Plain(Repeat("string", k))
  {
    if k > 0 {
      RepeatPlain(k - 1);
      var r := Repeat("string", k - 1);
      assert Repeat("string", k) == "string" + r;
      forall i | 0 <= i < |"string" + r|
        ensures ("string" + r)[i] != '(' && ("string" + r)[i] != ')' && ("string" + r)[i] != '='
      {
        if i >= 6 { assert ("string" + r)[i] == r[i - 6]; }
      }
    }
  }

  lemma SeparatorCounts(k: nat)
    ensures Counts(Separator(k), 0, 0, 0)
  {
    RepeatPlain(k);
    var sep := Separator(k);
    assert Plain(sep) by {
      var r := Repeat("string", k);
      assert sep == "$" + r + "$";
      forall i | 0 <= i < |sep| ensures sep[i] != '(' && sep[i] != ')' && sep[i] != '=' {
        if 0 < i < |sep| - 1 { assert sep[i] == r[i - 1]; }
      }
    }
    PlainCounts(sep);
  }

  lemma EqualsCount()
    ensures Counts("=", 0, 0, 1)
  {
    assert "="[1..] == "";
  }

  /** A plain name followed by '=': one '=' and no parenthesis. */
  lemma KeywordCounts(name: string)
    requires Plain(name)
    ensures Counts(name + "=", 0, 0, 1)
  {
    PlainCounts(name);
    EqualsCount();
    CountsAppend(name, "=", 0, 0, 0, 0, 0, 1);
  }

  lemma MonitorTestCounts()
    ensures Counts(MONITOR_TEST, 0, 0, 1)
  {
    var name := "MonitorID";
    assert Plain(name);
    assert MONITOR_TEST == name + "=";
    KeywordCounts(name);
  }

  lemma SiteTestCounts()
    ensures Counts(SITE_TEST, 0, 0, 1)
  {
    var name := " AND Site";
    assert Plain(name);
    assert SITE_TEST == name + "=";
    KeywordCounts(name);
  }

  lemma StationTestCounts()
    ensures Counts(STATION_TEST, 0, 0, 1)
  {
    var name := " AND StationID";
    assert Plain(name);
    assert STATION_TEST == name + "=";
    KeywordCounts(name);
  }

  lemma OpenCount()
    ensures Counts(OPEN, 1, 0, 0)
  {
    assert OPEN[1..] == "";
  }

  lemma CloseCount()
    ensures Counts(CLOSE, 0, 1, 0)
  {
    assert CLOSE[1..] == "";
  }

  /** The parenthesis between two conditions. */
  lemma CloseOrCount()
    ensures Counts(CLOSE_OR, 0, 1, 0)
  {
    CloseCount();
    var or := " OR ";
    assert Plain(or);
    PlainCounts(or);
    assert CLOSE_OR == CLOSE + or;
    CountsAppend(CLOSE, or, 0, 1, 0, 0, 0, 0);
  }

  /** A separated value test "<separator><keyword><separator><value>": one '='. */
  lemma ValueTestCounts(ss: string, keyword: string, value: string)
    requires Counts(ss, 0, 0, 0) && Counts(keyword, 0, 0, 1) && Counts(value, 0, 0, 0)
    ensures Counts(ss + keyword + ss + value, 0, 0, 1)
  {
    CountsAppend(ss, keyword, 0, 0, 0, 0, 0, 1);
    CountsAppend(ss + keyword, ss, 0, 0, 1, 0, 0, 0);
    CountsAppend(ss + keyword + ss, value, 0, 0, 1, 0, 0, 0);
  }

  /** The StationID test: one '=' unless the station is "multiple". */
  lemma StationCounts(m: Monitors.MonitorInfo, ss: string)
    requires PlainMonitor(m) && Counts(ss, 0, 0, 0)
    ensures Counts(StationTest(m, ss), 0, 0, StationTests(m))
  {
    if !IsMultiple(m.station.value) {
      StationTestCounts();
      PlainCounts(m.station.value);
      ValueTestCounts(ss, STATION_TEST, m.station.value);
    }
  }

  /** "<keyword><separator><value>" followed by a second value test: two '='. */
  lemma TwoTestsCounts(keyword: string, ss: string, value: string, second: string)
    requires Counts(keyword, 0, 0, 1) && Counts(ss, 0, 0, 0) && Counts(value, 0, 0, 0) && Counts(second, 0, 0, 1)
    ensures Counts(keyword + ss + value + second, 0, 0, 2)
  {
    CountsAppend(keyword, ss, 0, 0, 1, 0, 0, 0);
    CountsAppend(keyword + ss, value, 0, 0, 1, 0, 0, 0);
    CountsAppend(keyword + ss + value, second, 0, 0, 1, 0, 0, 1);
  }

  /** The monitor and site tests of a condition: two '=' and no parenthesis. */
  lemma MonitorSiteCounts(m: Monitors.MonitorInfo, ss: string)
    requires PlainMonitor(m) && Counts(ss, 0, 0, 0)
    ensures Counts(MONITOR_TEST + ss + m.monitor.value + SiteTest(m, ss), 0, 0, 2)
  {
    MonitorTestCounts();
    SiteTestCounts();
    PlainCounts(m.monitor.value);
    PlainCounts(m.site.value);
    ValueTestCounts(ss, SITE_TEST, m.site.value);
    TwoTestsCounts(MONITOR_TEST, ss, m.monitor.value, SiteTest(m, ss));
  }

  /**
   * A monitor's condition holds no parenthesis, and two '=' signs, or three
   * when its station is not "multiple": the StationID test is left out exactly
   * for "multiple" stations.
   */
  lemma ClauseCounts(m: Monitors.MonitorInfo, ss: string)
    requires PlainMonitor(m) && Counts(ss, 0, 0, 0)
    ensures Counts(Clause(m, ss), 0, 0, 2 + StationTests(m))
  {
    var b := MONITOR_TEST + ss + m.monitor.value + SiteTest(m, ss);
    var st := StationTest(m, ss);
    var k := StationTests(m);
    MonitorSiteCounts(m, ss);
    StationCounts(m, ss);
    CountsAppend(b, st, 0, 0, 2, 0, 0, k);
    CountsAppend(b + st, ss, 0, 0, 2 + k, 0, 0, 0);
    assert Clause(m, ss) == b + st + ss;
  }

  lemma {:induction false} ClausesCounts(ms: seq<Monitors.MonitorInfo>, ss: string)
    requires |ms| > 0 && AllComplete(ms) && Counts(ss, 0, 0, 0)
    requires forall i :: 0 <= i < |ms| ==> PlainMonitor(ms[i])
    ensures Counts(Clauses(ms, ss), |ms| - 1, |ms|, 2 * |ms| + StationClauses(ms))
  {
    var c := Clause(ms[0], ss);
    var k := StationTests(ms[0]);
    ClauseCounts(ms[0], ss);
    if |ms| == 1 {
      CloseCount();
      assert StationClauses(ms) == k + StationClauses(ms[1..]) && StationClauses(ms[1..]) == 0;
      CountsAppend(c, CLOSE, 0, 0, 2 + k, 0, 1, 0);
    } else {
      var rest := ms[1..];
      assert forall i :: 0 <= i < |rest| ==> PlainMonitor(rest[i]) by {
        forall i | 0 <= i < |rest| ensures PlainMonitor(rest[i]) {
          assert rest[i] == ms[i + 1];
        }
      }
      ClausesCounts(rest, ss);
      var n := |rest|;
      var e := 2 * n + StationClauses(rest);
      assert StationClauses(ms) == k + StationClauses(rest);
      OpenCount();
      CloseOrCount();
      CountsAppend(OPEN, c, 1, 0, 0, 0, 0, 2 + k);
      CountsAppend(OPEN + c, CLOSE_OR, 1, 0, 2 + k, 0, 1, 0);
      CountsAppend(OPEN + c + CLOSE_OR, Clauses(rest, ss), 1, 1, 2 + k, n - 1, n, e);
    }
  }

  /**
   * When no field holds a parenthesis or '=', the filter's parentheses are
   * balanced (one pair per monitor), and it holds one "MonitorID=" and one
   * "Site=" per monitor plus one "StationID=" per monitor whose station is not
   * "multiple".
   */
  lemma MonitorFilterCounts(ms: seq<Monitors.MonitorInfo>, solo: bool)
    requires forall i :: 0 <= i < |ms| ==> PlainMonitor(ms[i])
    ensures GenerateMonitorFilter(ms, solo).Some?
    ensures Counts(GenerateMonitorFilter(ms, solo).value, |ms|, |ms|, 2 * |ms| + StationClauses(ms))
  {
    assert AllComplete(ms);
    if |ms| > 0 {
      var ss := FilterShape(ms, solo);
      FilterBodyCounts(ms, solo, ss);
    }
  }

  /** The opening followed by the conditions: one more '(' than the conditions alone. */
  lemma FilterBodyCounts(ms: seq<Monitors.MonitorInfo>, solo: bool, ss: string)
    requires |ms| > 0 && AllComplete(ms) && Counts(ss, 0, 0, 0)
    requires forall i :: 0 <= i < |ms| ==> PlainMonitor(ms[i])
    ensures Counts(Head(solo) + Clauses(ms, ss), |ms|, |ms|, 2 * |ms| + StationClauses(ms))
  {
    ClausesCounts(ms, ss);
    HeadCounts(solo);
    CountsAppend(Head(solo), Clauses(ms, ss), 1, 0, 0, |ms| - 1, |ms|, 2 * |ms| + StationClauses(ms));
  }

  /** The opening of the filter, " WHERE (" or " AND (". */
  function Head(solo: bool): string {
    (if solo then " WHERE" else " AND") + " " + OPEN
  }

  /** A non-empty filter is its opening followed by the conditions, with a separator free of the counted characters. */
  lemma FilterShape(ms: seq<Monitors.MonitorInfo>, solo: bool) returns (ss: string)
    requires |ms| > 0 && AllComplete(ms)
    ensures Counts(ss, 0, 0, 0)
    ensures GenerateMonitorFilter(ms, solo) == Some(Head(solo) + Clauses(ms, ss))
  {
    var k := FindSeparator(ms, 1).value;
    ss := Separator(k);
    SeparatorCounts(k);
    assert Head(solo) == (if solo then " WHERE" else " AND") + " (";
  }

  /** The opening of the filter holds one '('. */
  lemma HeadCounts(solo: bool)
    ensures Counts(Head(solo), 1, 0, 0)
  {
    var word := (if solo then " WHERE" else " AND") + " ";
    assert Plain(word);
    PlainCounts(word);
    OpenCount();
    CountsAppend(word, OPEN, 0, 0, 0, 1, 0, 0);
  }

  /** `sub` placed between two strings occurs right after the first. */
  lemma OccursBetween(a: string, sub: string, b: string)
    ensures OccursAt(a + sub + b, sub, |a|)
  {
    assert (a + sub + b)[|a|..|a| + |sub|] == sub;
  }

  /** An occurrence survives putting a prefix in front, shifted by its length. */
  lemma OccursAfter(pre: string, s: string, sub: string, k: nat)
    requires OccursAt(s, sub, k)
    ensures OccursAt(pre + s, sub, |pre| + k)
  {
    assert (pre + s)[|pre| + k..|pre| + k + |sub|] == s[k..k + |sub|];
  }

  /** Each monitor's condition appears in the conditions, at some position. */
  lemma {:induction false} ClausesHold(ms: seq<Monitors.MonitorInfo>, ss: string, i: nat) returns (k: nat)
    requires |ms| > 0 && AllComplete(ms) && i < |ms|
    ensures OccursAt(Clauses(ms, ss), Clause(ms[i], ss), k)
    decreases |ms|
  {
    if |ms| == 1 {
      k := 0;
      OccursBetween("", Clause(ms[0], ss), CLOSE);
      assert "" + Clause(ms[0], ss) + CLOSE == Clauses(ms, ss);
    } else if i == 0 {
      k := |OPEN|;
      OccursBetween(OPEN, Clause(ms[0], ss), CLOSE_OR + Clauses(ms[1..], ss));
    } else {
      assert AllComplete(ms[1..]);
      var k1 := ClausesHold(ms[1..], ss, i - 1);
      k := ClausesLater(ms, ss, i, k1);
    }
  }

  /** An occurrence in the later monitors' conditions, seen from the whole. */
  lemma ClausesLater(ms: seq<Monitors.MonitorInfo>, ss: string, i: nat, k1: nat) returns (k: nat)
    requires |ms| > 1 && AllComplete(ms) && 0 < i < |ms|
    requires OccursAt(Clauses(ms[1..], ss), Clause(ms[1..][i - 1], ss), k1)
    ensures OccursAt(Clauses(ms, ss), Clause(ms[i], ss), k)
  {
    assert ms[1..][i - 1] == ms[i];
    var front := OPEN + Clause(ms[0], ss) + CLOSE_OR;
    OccursAfter(front, Clauses(ms[1..], ss), Clause(ms[i], ss), k1);
    k := |front| + k1;
  }

  /** A monitor's condition, written out test by test. */
  lemma ClauseSpelled(m: Monitors.MonitorInfo, ss: string)
    requires Monitors.Complete(m)
    ensures Clause(m, ss) == MONITOR_TEST + ss + m.monitor.value + ss + SITE_TEST + ss + m.site.value +
                             (if IsMultiple(m.station.value) then "" else ss + STATION_TEST + ss + m.station.value) + ss
  {
  }

  /** The filter contains every monitor's condition. */
  lemma FilterHoldsClause(ms: seq<Monitors.MonitorInfo>, solo: bool, i: nat)
    requires AllComplete(ms) && i < |ms|
    ensures Contains(GenerateMonitorFilter(ms, solo).value, Clause(ms[i], SafeSeparator(ms).value))
  {
    var ss := SafeSeparator(ms).value;
    var c := Clause(ms[i], ss);
    var k := ClausesHold(ms, ss, i);
    var head := (if solo then " WHERE" else " AND") + " (";
    var body := Clauses(ms, ss);
    assert GenerateMonitorFilter(ms, solo).value == head + body;
    OccursAfter(head, body, c, k);
    assert OccursAt(head + body, c, |head| + k);
  }

  /**
   * The filter names every monitor: its monitor ID and site, and its station
   * unless that is "multiple", each between two copies of a separator that
   * none of the monitors' IDs contains.
   */
  lemma FilterHoldsEveryMonitor(ms: seq<Monitors.MonitorInfo>, solo: bool, i: nat)
    requires AllComplete(ms) && i < |ms|
    ensures SafeSeparator(ms).Some? && !Clashes(ms, SafeSeparator(ms).value)
    ensures var ss := SafeSeparator(ms).value;
            var m := ms[i];
            Contains(GenerateMonitorFilter(ms, solo).value,
                     MONITOR_TEST + ss + m.monitor.value + ss + SITE_TEST + ss + m.site.value +
                     (if IsMultiple(m.station.value) then "" else ss + STATION_TEST + ss + m.station.value) + ss)
  {
    FilterHoldsClause(ms, solo, i);
    ClauseSpelled(ms[i], SafeSeparator(ms).value);
  }
}
