/**
 * One SID data file: where it lives, the metadata read from its header and
 * the time span it covers. A data file only exists once it has its monitor,
 * site and station IDs and both times; every constructor checks this last.
 * Times are milliseconds since the epoch, GMT. The parser for the
 * "y-M-d H:m:s" metadata time format is a parameter.
 */
module DataFiles {
  import opened Results
  import opened JavaStrings
  import Monitors

  const MONITOR_KEY := "MonitorID"
  const SITE_KEY := "Site"
  const STATION_KEY := "StationID"
  const START_KEY := "UTC_StartTime"
  const END_KEY := "UTC_EndTime"

  datatype FileData = FileData(path: string, metadata: map<string, string>, startTime: int, endTime: int)

  predicate HasIds(f: FileData) {
    MONITOR_KEY in f.metadata && SITE_KEY in f.metadata && STATION_KEY in f.metadata
  }

  /** A constructed data file: the three IDs are always present. */
  type DataFile = f: FileData | HasIds(f)
    witness FileData("", map[MONITOR_KEY := "", SITE_KEY := "", STATION_KEY := ""], 0, 0)

  /** Why a data file was rejected, in the order the checks run. */
  datatype FormatError = NoMonitorId | NoSiteId | NoStationId | BadStartTime | BadEndTime

  /** Every rejection reaches the caller wrapped in a RuntimeException. */
  datatype Thrown = RuntimeException(cause: FormatError)

  /** Parses a metadata time value; `None` for text it does not accept. */
  type TimeParser = string -> Option<int>

  function Site(f: DataFile): string { f.metadata[SITE_KEY] }
  function MonitorId(f: DataFile): string { f.metadata[MONITOR_KEY] }
  function Station(f: DataFile): string { f.metadata[STATION_KEY] }

  /** `getMetadataValue`: null for an absent key. */
  function MetadataValue(f: DataFile, key: string): Option<string> {
    if key in f.metadata then Some(f.metadata[key]) else None
  }

  /** `getMonitorInfo`: the monitor taken from the three IDs, without a location. */
  function MonitorOf(f: DataFile): (m: Monitors.MonitorInfo)
    ensures Monitors.Complete(m) && m.location.None?
    ensures m.site == Some(Site(f)) && m.monitor == Some(MonitorId(f)) && m.station == Some(Station(f))
  {
    Monitors.FromIds(Some(Site(f)), Some(MonitorId(f)), Some(Station(f)))
  }

  /** The monitors of two files are equal exactly when their three IDs are. */
  lemma MonitorOfEquals(f: DataFile, g: DataFile)
    ensures Monitors.Equals(MonitorOf(f), MonitorOf(g)) <==>
              (Site(f) == Site(g) && MonitorId(f) == MonitorId(g) && Station(f) == Station(g))
  {
  }

  /** `getStartTime` / `getEndTime` on a time that was not given: parse the metadata value. */
  function TimeFromMetadata(metadata: map<string, string>, key: string, parse: TimeParser): Option<int> {
    if key in metadata then parse(metadata[key]) else None
  }

  /**
   * `verifyData`: the checks run in a fixed order and the first failure is
   * reported; a file that passes them all is built from exactly these parts.
   */
  function Build(path: string, metadata: map<string, string>, start: Option<int>, end: Option<int>)
    : (r: Result<DataFile, Thrown>)
    ensures r.Ok? <==>
              MONITOR_KEY in metadata && SITE_KEY in metadata && STATION_KEY in metadata &&
              start.Some? && end.Some?
    ensures r.Ok? ==> r.value == FileData(path, metadata, start.value, end.value)
    ensures MONITOR_KEY !in metadata ==> r == Err(RuntimeException(NoMonitorId))
    ensures MONITOR_KEY in metadata && SITE_KEY !in metadata ==> r == Err(RuntimeException(NoSiteId))
    ensures (MONITOR_KEY in metadata && SITE_KEY in metadata && STATION_KEY !in metadata) ==>
              r == Err(RuntimeException(NoStationId))
    ensures (MONITOR_KEY in metadata && SITE_KEY in metadata && STATION_KEY in metadata && start.None?) ==>
              r == Err(RuntimeException(BadStartTime))
    ensures (MONITOR_KEY in metadata && SITE_KEY in metadata && STATION_KEY in metadata &&
             start.Some? && end.None?) ==>
              r == Err(RuntimeException(BadEndTime))
  {
    if MONITOR_KEY !in metadata then Err(RuntimeException(NoMonitorId))
    else if SITE_KEY !in metadata then Err(RuntimeException(NoSiteId))
    else if STATION_KEY !in metadata then Err(RuntimeException(NoStationId))
    else if start.None? then Err(RuntimeException(BadStartTime))
    else if end.None? then Err(RuntimeException(BadEndTime))
    else Ok(FileData(path, metadata, start.value, end.value))
  }

  /** `map.put(key, value)`: storing null is the same as having no entry. */
  function PutOpt(m: map<string, string>, key: string, value: Option<string>): (r: map<string, string>)
    ensures value.Some? ==> key in r && r[key] == value.value
    ensures value.None? ==> key !in r
    ensures forall k :: k != key ==> (k in r <==> k in m) && (k in r ==> r[k] == m[k])
  {
    if value.Some? then m[key := value.value] else m - {key}
  }

  function IdMetadata(site: Option<string>, monitor: Option<string>, station: Option<string>): (r: map<string, string>)
    ensures (SITE_KEY in r <==> site.Some?) && (site.Some? ==> r[SITE_KEY] == site.value)
    ensures (MONITOR_KEY in r <==> monitor.Some?) && (monitor.Some? ==> r[MONITOR_KEY] == monitor.value)
    ensures (STATION_KEY in r <==> station.Some?) && (station.Some? ==> r[STATION_KEY] == station.value)
    ensures START_KEY !in r && END_KEY !in r
  {
    PutOpt(PutOpt(PutOpt(map[], SITE_KEY, site), MONITOR_KEY, monitor), STATION_KEY, station)
  }

  /** Optional entries put after the IDs, none of them an ID or time key. */
  function PutAll(m: map<string, string>, entries: seq<(string, Option<string>)>): (r: map<string, string>)
    requires forall i :: 0 <= i < |entries| ==> entries[i].0 !in {SITE_KEY, MONITOR_KEY, STATION_KEY, START_KEY, END_KEY}
    ensures forall k :: k in {SITE_KEY, MONITOR_KEY, STATION_KEY, START_KEY, END_KEY} ==>
              (k in r <==> k in m) && (k in m ==> r[k] == m[k])
    decreases |entries|
  {
    if |entries| == 0 then m
    else PutAll(PutOpt(m, entries[0].0, entries[0].1), entries[1..])
  }

  /** A given time is used as is; a missing one is looked up in the metadata. */
  function ResolveTime(given: Option<int>, metadata: map<string, string>, key: string, parse: TimeParser): Option<int> {
    if given.Some? then given else TimeFromMetadata(metadata, key, parse)
  }

  /**
   * The constructor from path, IDs and times. It succeeds exactly when the
   * three IDs and both times are given (none of its keys is a time key).
   */
  function FromFields(path: string, site: Option<string>, monitor: Option<string>, station: Option<string>,
                      start: Option<int>, end: Option<int>, parse: TimeParser): (r: Result<DataFile, Thrown>)
    ensures r.Ok? <==> site.Some? && monitor.Some? && station.Some? && start.Some? && end.Some?
    ensures r.Ok? ==> r.value.path == path && r.value.startTime == start.value && r.value.endTime == end.value &&
                      Site(r.value) == site.value && MonitorId(r.value) == monitor.value &&
                      Station(r.value) == station.value
  {
    var m := IdMetadata(site, monitor, station);
    Build(path, m, ResolveTime(start, m, START_KEY, parse), ResolveTime(end, m, END_KEY, parse))
  }

  /** The constructor that also records the monitor's position. */
  function FromFieldsWithPosition(path: string, site: Option<string>, monitor: Option<string>, station: Option<string>,
                                  start: Option<int>, end: Option<int>, longitude: Option<string>,
                                  latitude: Option<string>, parse: TimeParser): (r: Result<DataFile, Thrown>)
    ensures r.Ok? <==> site.Some? && monitor.Some? && station.Some? && start.Some? && end.Some?
    ensures r.Ok? ==> Site(r.value) == site.value && MonitorId(r.value) == monitor.value &&
                      Station(r.value) == station.value
  {
    var m := PutAll(IdMetadata(site, monitor, station), [("Longitude", longitude), ("Latitude", latitude)]);
    Build(path, m, ResolveTime(start, m, START_KEY, parse), ResolveTime(end, m, END_KEY, parse))
  }

  /** The constructor that also records position and data range. */
  function FromFieldsWithRange(path: string, site: Option<string>, monitor: Option<string>, station: Option<string>,
                               start: Option<int>, end: Option<int>, longitude: Option<string>,
                               latitude: Option<string>, dataMin: Option<string>, dataMax: Option<string>,
                               parse: TimeParser): (r: Result<DataFile, Thrown>)
    ensures r.Ok? <==> site.Some? && monitor.Some? && station.Some? && start.Some? && end.Some?
    ensures r.Ok? ==> Site(r.value) == site.value && MonitorId(r.value) == monitor.value &&
                      Station(r.value) == station.value
  {
    var m := PutAll(IdMetadata(site, monitor, station),
                    [("Longitude", longitude), ("Latitude", latitude), ("DataMin", dataMin), ("DataMax", dataMax)]);
    Build(path, m, ResolveTime(start, m, START_KEY, parse), ResolveTime(end, m, END_KEY, parse))
  }

  /**
   * The constructor from a metadata map: the map is copied and both times
   * are parsed from it.
   */
  function FromMap(path: string, metadata: map<string, string>, parse: TimeParser): (r: Result<DataFile, Thrown>)
    ensures r.Ok? <==> HasIds(FileData(path, metadata, 0, 0)) &&
                       TimeFromMetadata(metadata, START_KEY, parse).Some? &&
                       TimeFromMetadata(metadata, END_KEY, parse).Some?
    ensures r.Ok? ==> r.value.metadata == metadata && r.value.path == path &&
                      parse(metadata[START_KEY]) == Some(r.value.startTime) &&
                      parse(metadata[END_KEY]) == Some(r.value.endTime)
  {
    Build(path, metadata, TimeFromMetadata(metadata, START_KEY, parse), TimeFromMetadata(metadata, END_KEY, parse))
  }

  /** Header lines are empty or start with '#'. */
  predicate IsHeaderLine(line: string) {
    line == "" || StartsWith(line, "#")
  }

  /**
   * One header line: without its '#' and the whitespace after it, a line that
   * splits around '=' into exactly two pieces stores a key and a value.
   */
  function HeaderEntry(metadata: map<string, string>, line: string): map<string, string> {
    if |line| == 0 then metadata
    else
      var kv := SplitAroundEquals(TrimLeft(line[1..]));
      if |kv| == 2 then metadata[kv[0] := kv[1]] else metadata
  }

  /** The header lines applied in order, so a later key overwrites an earlier one. */
  function FoldHeader(metadata: map<string, string>, lines: seq<string>): map<string, string> {
    if |lines| == 0 then metadata
    else HeaderEntry(FoldHeader(metadata, lines[..|lines| - 1]), lines[|lines| - 1])
  }

  /** The number of header lines at the start of the file. */
  function LeadingHeaders(lines: seq<string>): (h: nat)
    ensures h <= |lines|
    ensures forall i :: 0 <= i < h ==> IsHeaderLine(lines[i])
    ensures h < |lines| ==> !IsHeaderLine(lines[h])
  {
    if |lines| == 0 || !IsHeaderLine(lines[0]) then 0 else 1 + LeadingHeaders(lines[1..])
  }

  /** The file name pieces around '_' and '.'; the fourth names the monitor. */
  function NameParts(name: string): seq<string> {
    Split(name, {'_', '.'})
  }

  /** Fallback for the end time: the first comma-separated field of the last line. */
  function EndTimeFallback(metadata: map<string, string>, lines: seq<string>, parse: TimeParser): map<string, string>
    requires |lines| > 0
  {
    if TimeFromMetadata(metadata, END_KEY, parse).Some? then metadata
    else
      var parts := Split(lines[|lines| - 1], {','});
      if |parts| == 0 then metadata else metadata[END_KEY := parts[0]]
  }

  /**
   * What follows the header: a missing monitor ID is taken from the fourth
   * piece of the file name (a name with fewer pieces throws, which ends the
   * parse), then the end-time fallback.
   */
  function AfterHeader(name: string, header: map<string, string>, lines: seq<string>, parse: TimeParser)
    : map<string, string>
    requires |lines| > 0
  {
    if MONITOR_KEY in header then EndTimeFallback(header, lines, parse)
    else
      var parts := NameParts(name);
      if |parts| < 4 then header
      else EndTimeFallback(header[MONITOR_KEY := parts[3]], lines, parse)
  }

  /**
   * `parseMetadata` on the lines of a file (`None` when it cannot be opened).
   * Every failure inside it is caught and leaves the metadata gathered so far;
   * a file that ends inside its header returns at once.
   */
  function ParseMetadata(name: string, content: Option<seq<string>>, parse: TimeParser): map<string, string> {
    if content.None? || |content.value| == 0 then map[] else ParseLines(name, content.value, parse)
  }

  /** The parse of a file with at least one line: the header, then the fallbacks if data follows. */
  function ParseLines(name: string, lines: seq<string>, parse: TimeParser): map<string, string>
    requires |lines| > 0
  {
    var h := LeadingHeaders(lines);
    var header := FoldHeader(map[], lines[..h]);
    if h == |lines| then header else AfterHeader(name, header, lines, parse)
  }

  /**
   * A file with nothing but header lines keeps exactly the header entries: no
   * monitor ID from the name and no end time from the data.
   */
  lemma ParseMetadataHeaderOnly(name: string, lines: seq<string>, parse: TimeParser)
    requires forall i :: 0 <= i < |lines| ==> IsHeaderLine(lines[i])
    ensures ParseMetadata(name, Some(lines), parse) == FoldHeader(map[], lines)
  {
    if |lines| > 0 {
      ParseMetadataNonEmpty(name, lines, parse);
      assert LeadingHeaders(lines) == |lines|;
      assert lines[..|lines|] == lines;
    }
  }

  /**
   * A file with data lines and no monitor ID in its header takes the fourth
   * piece of its name; a name with fewer pieces aborts the parse before the
   * end-time fallback.
   */
  lemma ParseMetadataMonitorFallback(name: string, lines: seq<string>, parse: TimeParser)
    requires LeadingHeaders(lines) < |lines|
    requires MONITOR_KEY !in FoldHeader(map[], lines[..LeadingHeaders(lines)])
    ensures var r := ParseMetadata(name, Some(lines), parse);
            (|NameParts(name)| >= 4 ==> MONITOR_KEY in r && r[MONITOR_KEY] == NameParts(name)[3]) &&
            (|NameParts(name)| < 4 ==> r == FoldHeader(map[], lines[..LeadingHeaders(lines)]))
  {
    ParseMetadataWithData(name, lines, parse);
    AfterHeaderMonitor(name, FoldHeader(map[], lines[..LeadingHeaders(lines)]), lines, parse);
  }

  /** With a data line, the parse is the header followed by the fallbacks. */
  lemma ParseMetadataWithData(name: string, lines: seq<string>, parse: TimeParser)
    requires LeadingHeaders(lines) < |lines|
    ensures ParseMetadata(name, Some(lines), parse) ==
            AfterHeader(name, FoldHeader(map[], lines[..LeadingHeaders(lines)]), lines, parse)
  {
    ParseMetadataNonEmpty(name, lines, parse);
    ParseLinesWithData(name, lines, parse);
  }

  lemma ParseMetadataNonEmpty(name: string, lines: seq<string>, parse: TimeParser)
    requires |lines| > 0
    ensures ParseMetadata(name, Some(lines), parse) == ParseLines(name, lines, parse)
  {
  }

  lemma ParseLinesWithData(name: string, lines: seq<string>, parse: TimeParser)
    requires LeadingHeaders(lines) < |lines|
    ensures ParseLines(name, lines, parse) ==
            AfterHeader(name, FoldHeader(map[], lines[..LeadingHeaders(lines)]), lines, parse)
  {
  }

  lemma AfterHeaderMonitor(name: string, header: map<string, string>, lines: seq<string>, parse: TimeParser)
    requires |lines| > 0 && MONITOR_KEY !in header
    ensures var r := AfterHeader(name, header, lines, parse);
            (|NameParts(name)| >= 4 ==> MONITOR_KEY in r && r[MONITOR_KEY] == NameParts(name)[3]) &&
            (|NameParts(name)| < 4 ==> r == header)
  {
    var parts := NameParts(name);
    if |parts| >= 4 {
      EndTimeFallbackKeeps(header[MONITOR_KEY := parts[3]], lines, parse, MONITOR_KEY);
    }
  }

  /** The end-time fallback touches no other key. */
  lemma EndTimeFallbackKeeps(m: map<string, string>, lines: seq<string>, parse: TimeParser, key: string)
    requires |lines| > 0 && key != END_KEY && key in m
    ensures var r := EndTimeFallback(m, lines, parse); key in r && r[key] == m[key]
  {
  }

  /**
   * A file with data lines whose end time does not parse takes the first
   * comma-separated field of its last line as the end time.
   */
  lemma ParseMetadataEndFallback(name: string, lines: seq<string>, parse: TimeParser)
    requires LeadingHeaders(lines) < |lines|
    requires var header := FoldHeader(map[], lines[..LeadingHeaders(lines)]);
             MONITOR_KEY in header && TimeFromMetadata(header, END_KEY, parse).None?
    requires |Split(lines[|lines| - 1], {','})| > 0
    ensures var r := ParseMetadata(name, Some(lines), parse);
            END_KEY in r && r[END_KEY] == Split(lines[|lines| - 1], {','})[0]
  {
  }

  /** The header line "#key=value" a data file is written with. */
  function HeaderLine(key: string, value: string): string {
    "#" + key + "=" + value
  }

  /** A key and value that survive the header syntax unchanged. */
  predicate PlainEntry(key: string, value: string) {
    (forall i :: 0 <= i < |key| ==> key[i] != '=' && !IsSpace(key[i])) &&
    (forall i :: 0 <= i < |value| ==> value[i] != '=') &&
    |value| > 0 && !IsSpace(value[0])
  }

  /** The text after the '#' of a plain header line starts with no space. */
  lemma HeaderBody(key: string, value: string)
    requires PlainEntry(key, value)
    ensures HeaderLine(key, value)[1..] == key + "=" + value
    ensures TrimLeft(key + "=" + value) == key + "=" + value
  {
    var body := key + "=" + value;
    assert HeaderLine(key, value) == "#" + body;
    var first := if |key| > 0 then key[0] else '=';
    assert body[0] == first && !IsSpace(first);
    TrimLeftNoSpace(body);
  }

  /** A plain header line stores its key and value. */
  lemma HeaderEntryStores(metadata: map<string, string>, key: string, value: string)
    requires PlainEntry(key, value)
    ensures HeaderEntry(metadata, HeaderLine(key, value)) == metadata[key := value]
  {
    HeaderBody(key, value);
    SplitAroundEqualsPair(key, value);
  }

  /** Header lines for a list of entries, in order. */
  function HeaderLines(entries: seq<(string, string)>): (r: seq<string>)
    ensures |r| == |entries|
    ensures forall i :: 0 <= i < |entries| ==> r[i] == HeaderLine(entries[i].0, entries[i].1)
  {
    if |entries| == 0 then [] else HeaderLines(entries[..|entries| - 1]) + [HeaderLine(entries[|entries| - 1].0, entries[|entries| - 1].1)]
  }

  /** The map a list of entries denotes when a later entry wins over an earlier one. */
  function EntriesMap(entries: seq<(string, string)>): map<string, string> {
    if |entries| == 0 then map[]
    else EntriesMap(entries[..|entries| - 1])[entries[|entries| - 1].0 := entries[|entries| - 1].1]
  }

  /**
   * Header lines written from a list of plain entries fold back into exactly
   * those entries, the last value of a repeated key winning.
   */
  lemma {:induction false} HeaderRoundTrip(entries: seq<(string, string)>)
    requires forall i :: 0 <= i < |entries| ==> PlainEntry(entries[i].0, entries[i].1)
    ensures FoldHeader(map[], HeaderLines(entries)) == EntriesMap(entries)
  {
    if |entries| > 0 {
      var init := entries[..|entries| - 1];
      var last := entries[|entries| - 1];
      assert HeaderLines(entries)[..|entries| - 1] == HeaderLines(init);
      HeaderRoundTrip(init);
      HeaderEntryStores(EntriesMap(init), last.0, last.1);
    }
  }

  /** A data file read from disk, named `name` and stored at `path`. */
  function FromFile(name: string, path: string, content: Option<seq<string>>, parse: TimeParser)
    : (r: Result<DataFile, Thrown>)
    ensures var m := ParseMetadata(name, content, parse);
            r.Ok? <==> HasIds(FileData(path, m, 0, 0)) &&
                       TimeFromMetadata(m, START_KEY, parse).Some? && TimeFromMetadata(m, END_KEY, parse).Some?
    ensures r.Ok? ==> r.value.path == path && r.value.metadata == ParseMetadata(name, content, parse)
    ensures content.None? ==> r == Err(RuntimeException(NoMonitorId))
  {
    var m := ParseMetadata(name, content, parse);
    Build(path, m, TimeFromMetadata(m, START_KEY, parse), TimeFromMetadata(m, END_KEY, parse))
  }

  /** `equals`: two data files are the same when their paths are. */
  predicate SameFile(a: DataFile, b: DataFile) {
    a.path == b.path
  }

  /** `hashCode` hashes the path, so it agrees with `equals`. */
  function HashKey(f: DataFile): string {
    f.path
  }

  /**
   * Identity ignores the metadata and times: any two files at one path are
   * equal and hash alike, and equality is an equivalence.
   */
  lemma SameFileByPath(a: DataFile, b: DataFile, c: DataFile)
    ensures SameFile(a, a)
    ensures SameFile(a, b) ==> SameFile(b, a) && HashKey(a) == HashKey(b)
    ensures SameFile(a, b) && SameFile(b, c) ==> SameFile(a, c)
    ensures SameFile(a, b) <==> a.path == b.path
  {
  }

  /** The collection holds no two equal data files. */
  predicate UniquePaths(xs: seq<DataFile>) {
    forall i, j :: 0 <= i < j < |xs| ==> xs[i].path != xs[j].path
  }

  function Paths(xs: seq<DataFile>): set<string> {
    set f | f in xs :: f.path
  }

  /**
   * `HashSet.add`: a file whose path is already present leaves the set as it
   * is; a new one is appended.
   */
  function AddByPath(xs: seq<DataFile>, f: DataFile): (r: seq<DataFile>)
    ensures Paths(r) == Paths(xs) + {f.path}
    ensures forall g :: g in xs ==> g in r
    ensures forall g :: g in r ==> g in xs || g == f
    ensures UniquePaths(xs) ==> UniquePaths(r)
    ensures f.path in Paths(xs) ==> r == xs
    ensures f.path !in Paths(xs) ==> r == xs + [f]
  {
    if f.path in Paths(xs) then xs else xs + [f]
  }

  lemma PathsCons(ys: seq<DataFile>)
    requires |ys| > 0
    ensures Paths(ys) == {ys[0].path} + Paths(ys[1..])
    ensures forall g :: g in ys <==> g == ys[0] || g in ys[1..]
  {
    assert ys == [ys[0]] + ys[1..];
  }

  /** `addAll` into a hash set: the files of `ys` are added one after another. */
  function UnionByPath(xs: seq<DataFile>, ys: seq<DataFile>): (r: seq<DataFile>)
    ensures Paths(r) == Paths(xs) + Paths(ys)
    ensures forall g :: g in xs ==> g in r
    ensures forall g :: g in r ==> g in xs || g in ys
    ensures UniquePaths(xs) ==> UniquePaths(r)
    decreases |ys|
  {
    if |ys| == 0 then xs
    else
      PathsCons(ys);
      UnionByPath(AddByPath(xs, ys[0]), ys[1..])
  }
}
