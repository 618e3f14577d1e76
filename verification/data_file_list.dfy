/**
 * A list of data files and the ways the browser narrows it down: by monitor
 * ID prefix, by monitor, and the monitors it holds. Filtering collects into
 * a hash set, so a filtered list holds each path at most once.
 */
module DataFileLists {
  import opened Results
  import opened JavaStrings
  import opened DataFiles
  import Monitors

  datatype DataFileList = DataFileList(files: seq<DataFile>)

  /** The constructor copies the given collection. */
  function FromCollection(files: seq<DataFile>): DataFileList {
    DataFileList(files)
  }

  /** Adds to `acc`, as a hash set would, every file of `files` that `keep` accepts. */
  function AddMatching(acc: seq<DataFile>, files: seq<DataFile>, keep: DataFile -> bool): (r: seq<DataFile>)
    ensures Paths(r) == Paths(acc) + (set f | f in files && keep(f) :: f.path)
    ensures forall g :: g in acc ==> g in r
    ensures forall g :: g in r ==> g in acc || (g in files && keep(g))
    ensures UniquePaths(acc) ==> UniquePaths(r)
    decreases |files|
  {
    if |files| == 0 then acc
    else
      PathsCons(files);
      var next := if keep(files[0]) then AddByPath(acc, files[0]) else acc;
      AddMatching(next, files[1..], keep)
  }

  /** The monitor ID of `f` starts with `id`, ignoring case. */
  predicate MatchesId(f: DataFile, id: string) {
    StartsWith(ToLower(MonitorId(f)), ToLower(id))
  }

  function CollectByIds(acc: seq<DataFile>, files: seq<DataFile>, ids: seq<string>): (r: seq<DataFile>)
    ensures Paths(r) == Paths(acc) + (set f, id | f in files && id in ids && MatchesId(f, id) :: f.path)
    ensures forall g :: g in r ==> g in acc || (g in files && exists id :: id in ids && MatchesId(g, id))
    ensures UniquePaths(acc) ==> UniquePaths(r)
    decreases |ids|
  {
    if |ids| == 0 then acc
    else
      var next := AddMatching(acc, files, (f: DataFile) => MatchesId(f, ids[0]));
      IdMatchesSplit(files, ids);
      CollectByIds(next, files, ids[1..])
  }

  /** The paths matching some ID are those matching the first ID and those matching one of the rest. */
  lemma IdMatchesSplit(files: seq<DataFile>, ids: seq<string>)
    requires |ids| > 0
    ensures (set f, id | f in files && id in ids && MatchesId(f, id) :: f.path) ==
            (set f | f in files && MatchesId(f, ids[0]) :: f.path) +
            (set f, id | f in files && id in ids[1..] && MatchesId(f, id) :: f.path)
    ensures forall g :: (exists id :: id in ids && MatchesId(g, id)) <==>
                          MatchesId(g, ids[0]) || exists id :: id in ids[1..] && MatchesId(g, id)
  {
    assert forall id :: id in ids <==> id == ids[0] || id in ids[1..] by {
      assert ids == [ids[0]] + ids[1..];
    }
  }

  /**
   * `filterByMonitors(String[])`: without IDs the list itself; otherwise the
   * files whose monitor ID starts with one of the IDs, ignoring case, each
   * path once.
   */
  function FilterByIds(l: DataFileList, ids: Option<seq<string>>): (r: DataFileList)
    ensures ids.None? ==> r == l
    ensures ids.Some? ==> UniquePaths(r.files)
    ensures ids.Some? ==> forall g :: g in r.files ==> g in l.files && exists id :: id in ids.value && MatchesId(g, id)
    ensures ids.Some? ==> forall f, id :: f in l.files && id in ids.value && MatchesId(f, id) ==> f.path in Paths(r.files)
  {
    if ids.None? then l else DataFileList(CollectByIds([], l.files, ids.value))
  }

  /** The test `filterByMonitors` applies: each ID of the file equals the monitor's. */
  predicate IdsMatch(f: DataFile, m: Monitors.MonitorInfo) {
    m.monitor == Some(MonitorId(f)) && m.site == Some(Site(f)) && m.station == Some(Station(f))
  }

  /** The file was made by the monitor: its monitor equals `m`. */
  predicate MadeBy(f: DataFile, m: Monitors.MonitorInfo) {
    Monitors.Equals(MonitorOf(f), m)
  }

  function CollectByMonitors(acc: seq<DataFile>, files: seq<DataFile>, ms: seq<Monitors.MonitorInfo>): (r: seq<DataFile>)
    ensures Paths(r) == Paths(acc) + (set f, m | f in files && m in ms && MadeBy(f, m) :: f.path)
    ensures forall g :: g in r ==> g in acc || (g in files && exists m :: m in ms && MadeBy(g, m))
    ensures UniquePaths(acc) ==> UniquePaths(r)
    decreases |ms|
  {
    if |ms| == 0 then acc
    else
      var next := AddMatching(acc, files, (f: DataFile) => MadeBy(f, ms[0]));
      MonitorMatchesSplit(files, ms);
      CollectByMonitors(next, files, ms[1..])
  }

  /** The paths made by some monitor are those made by the first and those made by one of the rest. */
  lemma MonitorMatchesSplit(files: seq<DataFile>, ms: seq<Monitors.MonitorInfo>)
    requires |ms| > 0
    ensures (set f, m | f in files && m in ms && MadeBy(f, m) :: f.path) ==
            (set f | f in files && MadeBy(f, ms[0]) :: f.path) +
            (set f, m | f in files && m in ms[1..] && MadeBy(f, m) :: f.path)
    ensures forall g :: (exists m :: m in ms && MadeBy(g, m)) <==>
                          MadeBy(g, ms[0]) || exists m :: m in ms[1..] && MadeBy(g, m)
  {
    assert forall m :: m in ms <==> m == ms[0] || m in ms[1..] by {
      assert ms == [ms[0]] + ms[1..];
    }
  }

  /**
   * `filterByMonitors(Collection)`: without monitors, or with none, the list
   * itself; otherwise the files whose monitor, site and station IDs all equal
   * those of one of the monitors, each path once.
   */
  function FilterByMonitors(l: DataFileList, ms: Option<seq<Monitors.MonitorInfo>>): (r: DataFileList)
    ensures ms.None? || |ms.value| == 0 ==> r == l
    ensures ms.Some? && |ms.value| > 0 ==> UniquePaths(r.files)
    ensures ms.Some? && |ms.value| > 0 ==>
              forall g :: g in r.files ==> g in l.files && exists m :: m in ms.value && IdsMatch(g, m)
    ensures ms.Some? && |ms.value| > 0 ==>
              forall f, m :: f in l.files && m in ms.value && IdsMatch(f, m) ==> f.path in Paths(r.files)
  {
    if ms.None? || |ms.value| == 0 then l
    else
      var r := CollectByMonitors([], l.files, ms.value);
      assert forall f, m :: MadeBy(f, m) <==> IdsMatch(f, m);
      DataFileList(r)
  }

  function AddString(xs: seq<string>, x: string): (r: seq<string>)
    ensures (set y | y in r) == (set y | y in xs) + {x}
    ensures (forall i, j :: 0 <= i < j < |xs| ==> xs[i] != xs[j]) ==> forall i, j :: 0 <= i < j < |r| ==> r[i] != r[j]
  {
    if x in xs then xs else xs + [x]
  }

  function CollectIds(acc: seq<string>, files: seq<DataFile>): (r: seq<string>)
    ensures (set y | y in r) == (set y | y in acc) + (set f | f in files :: MonitorId(f))
    ensures (forall i, j :: 0 <= i < j < |acc| ==> acc[i] != acc[j]) ==> forall i, j :: 0 <= i < j < |r| ==> r[i] != r[j]
    decreases |files|
  {
    if |files| == 0 then acc
    else
      PathsCons(files);
      CollectIds(AddString(acc, MonitorId(files[0])), files[1..])
  }

  /** `getMonitors`: every monitor ID of the list, each once. */
  function GetMonitors(l: DataFileList): (r: seq<string>)
    ensures (set y | y in r) == (set f | f in l.files :: MonitorId(f))
    ensures forall i, j :: 0 <= i < j < |r| ==> r[i] != r[j]
  {
    CollectIds([], l.files)
  }

  function CollectMonitorInfo(acc: seq<Monitors.MonitorInfo>, files: seq<DataFile>): (r: seq<Monitors.MonitorInfo>)
    requires forall x :: x in acc ==> Monitors.Complete(x)
    ensures forall x :: x in r ==> Monitors.Complete(x)
    ensures Monitors.Distinct(acc) ==> Monitors.Distinct(r)
    ensures forall x :: x in acc ==> x in r
    ensures forall x :: x in r ==> x in acc || exists f :: f in files && x == MonitorOf(f)
    ensures forall f :: f in files ==> Monitors.HasEqual(r, MonitorOf(f))
    decreases |files|
  {
    if |files| == 0 then acc
    else
      var next := Monitors.AddMonitor(acc, MonitorOf(files[0]));
      var r := CollectMonitorInfo(next, files[1..]);
      PathsCons(files);
      assert forall x :: x in next ==> x in r;
      assert forall k :: 0 <= k < |next| ==> next[k] in r;
      r
  }

  /**
   * `getMonitorInfo`: one monitor per distinct (site, monitor, station) of the
   * list; every file's monitor is among them and nothing else is.
   */
  function GetMonitorInfo(l: DataFileList): (r: seq<Monitors.MonitorInfo>)
    ensures Monitors.Distinct(r)
    ensures forall f :: f in l.files ==> Monitors.HasEqual(r, MonitorOf(f))
    ensures forall x :: x in r ==> Monitors.Complete(x) && exists f :: f in l.files && x == MonitorOf(f)
  {
    CollectMonitorInfo([], l.files)
  }

  function IsEmpty(l: DataFileList): bool {
    |l.files| == 0
  }
}
