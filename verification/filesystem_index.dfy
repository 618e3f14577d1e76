/**
 * The filesystem data-file index: one bucket per GMT day listing the data
 * files with data on that day, the set of monitors seen, and a flag that is
 * raised once a full update has finished. An update empties every bucket
 * and then walks the data directory, adding each data file to the bucket of
 * every day it covers. Queries read the buckets through the cache.
 *
 * The directory walk is a parameter: the sequence of regular files it finds,
 * each with its name, path and lines (`None` when it cannot be read), and
 * whether it listed every directory or stopped at one it could not list. The
 * files that still exist on disk are a parameter of the queries.
 */
module FilesystemIndex {
  import opened Results
  import opened CalendarUtil
  import opened DataFiles
  import Monitors
  import MonitorComparators
  import DataFileLists
  import B = DataIndexFiles
  import C = IndexFileCache

  datatype Index = Index(store: B.Store, monitors: seq<Monitors.MonitorInfo>, updateComplete: bool)

  /** The buckets are valid and the monitor set holds distinct, complete monitors. */
  predicate Valid(idx: Index) {
    B.Valid(idx.store) &&
    (forall m :: m in idx.monitors ==> Monitors.Complete(m)) && Monitors.Distinct(idx.monitors)
  }

  /** The constructor: no buckets, no monitors, no finished update. */
  function New(): (idx: Index)
    ensures Valid(idx) && !idx.updateComplete
    ensures forall d :: d !in idx.store.buckets
  {
    Index(B.EmptyStore(), [], false)
  }

  /** The bucket for `d` holds `g`. */
  predicate Holds(s: B.Store, d: int, g: DataFile) {
    d in s.buckets && g in B.ReadFiles(s.buckets[d])
  }

  /** The paths the bucket for `d` holds; none when there is no bucket. */
  function Held(s: B.Store, d: int): set<string> {
    if d in s.buckets then Paths(B.ReadFiles(s.buckets[d])) else {}
  }

  // ---------------------------------------------------------------------
  // The update task
  // ---------------------------------------------------------------------

  /** A regular file found by the directory walk. */
  datatype Candidate = Candidate(name: string, path: string, content: Option<seq<string>>)

  /**
   * The name filter, a full match of `.*(dat|csv|txt)`: the name ends in one
   * of the three suffixes and no character before it is a line terminator
   * (`.` does not match those).
   */
  predicate IndexedName(name: string) {
    |name| >= 3 && name[|name| - 3..] in ["dat", "csv", "txt"] &&
    forall i :: 0 <= i < |name| - 3 ==> !Monitors.IsLineTerminator(name[i])
  }

  /** The filter needs no dot and is case-sensitive. */
  lemma IndexedNameExamples()
    ensures IndexedName("sid." + "csv") && IndexedName("" + "txt") && IndexedName("update." + "dat")
    ensures !IndexedName("sid." + "DAT") && !IndexedName("sid.dat." + "bak") && !IndexedName("a\nb." + "txt")
  {
    IndexedSuffix("sid.", "csv");
    IndexedSuffix("", "txt");
    IndexedSuffix("update.", "dat");
    OtherSuffix("sid.", "DAT");
    OtherSuffix("sid.dat.", "bak");
    var stem := "a\nb.";
    assert (stem + "txt")[1] == '\n';
  }

  /** A name made of a stem without line terminators and one of the three suffixes passes. */
  lemma IndexedSuffix(stem: string, suffix: string)
    requires suffix == "dat" || suffix == "csv" || suffix == "txt"
    requires forall i :: 0 <= i < |stem| ==> !Monitors.IsLineTerminator(stem[i])
    ensures IndexedName(stem + suffix)
  {
    var name := stem + suffix;
    assert name[|name| - 3..] == suffix;
    assert forall i :: 0 <= i < |name| - 3 ==> name[i] == stem[i];
  }

  /** A name ending in any other three characters does not pass. */
  lemma OtherSuffix(stem: string, suffix: string)
    requires |suffix| == 3 && suffix != "dat" && suffix != "csv" && suffix != "txt"
    ensures !IndexedName(stem + suffix)
  {
    var name := stem + suffix;
    assert name[|name| - 3..] == suffix;
  }

  /** The data file a candidate contributes, if its name passes and it decodes. */
  function Decoded(c: Candidate, parse: TimeParser): (r: Option<DataFile>)
    ensures r.Some? ==> r.value.path == c.path
    ensures r.Some? <==> IndexedName(c.name) && FromFile(c.name, c.path, c.content, parse).Ok?
  {
    if !IndexedName(c.name) then None
    else
      var df := FromFile(c.name, c.path, c.content, parse);
      if df.Ok? then Some(df.value) else None
  }

  /** The candidate is indexed under day `d`. */
  predicate Touches(c: Candidate, parse: TimeParser, d: int) {
    var f := Decoded(c, parse);
    f.Some? && d in DaysInRange(f.value.startTime, f.value.endTime)
  }

  /** Reference definition: the paths of the walk's files indexed under day `d`. */
  function IndexedPaths(walk: seq<Candidate>, parse: TimeParser, d: int): set<string> {
    KeptPaths(walk, c => Touches(c, parse, d))
  }

  /** The paths of the candidates a test keeps. */
  function KeptPaths(walk: seq<Candidate>, keep: Candidate -> bool): set<string> {
    set c | c in walk && keep(c) :: c.path
  }

  lemma IndexedPathsSnoc(walk: seq<Candidate>, parse: TimeParser, d: int)
    requires |walk| > 0
    ensures var n := |walk| - 1;
            IndexedPaths(walk, parse, d) ==
              IndexedPaths(walk[..n], parse, d) + (if Touches(walk[n], parse, d) then {walk[n].path} else {})
  {
    KeptPathsSnoc(walk, c => Touches(c, parse, d));
  }

  /** The paths of the candidates a test keeps, for a walk one longer. */
  lemma KeptPathsSnoc(walk: seq<Candidate>, keep: Candidate -> bool)
    requires |walk| > 0
    ensures var n := |walk| - 1;
            KeptPaths(walk, keep) == KeptPaths(walk[..n], keep) + (if keep(walk[n]) then {walk[n].path} else {})
  {
    var n := |walk| - 1;
    assert forall c :: c in walk <==> c in walk[..n] || c == walk[n] by {
      assert walk == walk[..n] + [walk[n]];
    }
  }

  /** Creates the day's bucket when there is none. */
  function EnsureBucket(s: B.Store, d: int): (r: B.Store)
    requires B.Valid(s)
    ensures B.Valid(r) && d in r.buckets && r.buckets.Keys == s.buckets.Keys + {d}
    ensures Held(r, d) == Held(s, d)
    ensures forall e, g :: Holds(r, e, g) <==> Holds(s, e, g)
    ensures forall e :: e in s.buckets ==> r.buckets[e] == s.buckets[e]
    ensures B.Coherent(s) ==> B.Coherent(r)
  {
    if d in s.buckets then s
    else
      var r := B.Store(s.buckets[d := B.NewBucket(d)], s.cache);
      assert forall e, g :: Holds(r, e, g) ==> e != d;
      r
  }

  /** One day of `AddToDays`: make sure the bucket exists, then add the file to it. */
  function AddToDay(s: B.Store, d: int, f: DataFile): (r: B.Store)
    requires B.Valid(s)
    ensures B.Valid(r) && r.buckets.Keys == s.buckets.Keys + {d}
    ensures forall e :: Held(r, e) == Held(s, e) + (if e == d then {f.path} else {})
    ensures forall e, g :: Holds(r, e, g) ==> Holds(s, e, g) || (e == d && g == f)
    ensures B.Coherent(s) ==> B.Coherent(r)
  {
    var s0 := EnsureBucket(s, d);
    var r := B.AddFile(s0, d, f);
    assert forall e :: e != d ==> Held(r, e) == Held(s0, e);
    r
  }

  /**
   * Adds a data file to the bucket of every listed day, creating buckets as
   * needed (`AddToDaysHeld` and `AddToDaysHolds` say what each bucket gains).
   */
  function AddToDays(s: B.Store, days: seq<int>, f: DataFile): (r: B.Store)
    requires B.Valid(s)
    ensures B.Valid(r)
    ensures forall d :: d in r.buckets <==> d in s.buckets || d in days
    ensures B.Coherent(s) ==> B.Coherent(r)
    decreases |days|
  {
    if |days| == 0 then s
    else
      assert forall e :: e in days <==> e == days[0] || e in days[1..];
      AddToDays(AddToDay(s, days[0], f), days[1..], f)
  }

  /** Each listed day's bucket gains the file's path; the other buckets keep theirs. */
  lemma {:induction false} AddToDaysHeld(s: B.Store, days: seq<int>, f: DataFile, e: int, p: string)
    requires B.Valid(s)
    ensures p in Held(AddToDays(s, days, f), e) <==> p in Held(s, e) || (e in days && p == f.path)
    decreases |days|
  {
    if |days| > 0 {
      var s1 := AddToDay(s, days[0], f);
      AddToDaysHeld(s1, days[1..], f, e, p);
      assert e in days <==> e == days[0] || e in days[1..];
    }
  }

  /** A bucket gains no file other than the added one, and only on the listed days. */
  lemma {:induction false} AddToDaysHolds(s: B.Store, days: seq<int>, f: DataFile, e: int, g: DataFile)
    requires B.Valid(s)
    ensures Holds(AddToDays(s, days, f), e, g) ==> Holds(s, e, g) || (e in days && g == f)
    decreases |days|
  {
    if |days| > 0 {
      assert e in days <==> e == days[0] || e in days[1..];
      AddToDaysHolds(AddToDay(s, days[0], f), days[1..], f, e, g);
    }
  }

  /**
   * `processFile`: a file whose name passes and which decodes has its
   * monitor added to the monitor set and is added to the bucket of every
   * day from its start to its end; any other file changes nothing.
   */
  function ProcessFile(idx: Index, c: Candidate, parse: TimeParser): (r: Index)
    requires Valid(idx)
    ensures Valid(r) && r.updateComplete == idx.updateComplete
    ensures forall d :: d in r.store.buckets <==> d in idx.store.buckets || Touches(c, parse, d)
    ensures B.Coherent(idx.store) ==> B.Coherent(r.store)
    ensures forall m :: Monitors.HasEqual(idx.monitors, m) ==> Monitors.HasEqual(r.monitors, m)
    ensures Decoded(c, parse).Some? ==> Monitors.HasEqual(r.monitors, MonitorOf(Decoded(c, parse).value))
    ensures forall m :: m in r.monitors ==>
              m in idx.monitors || (Decoded(c, parse).Some? && m == MonitorOf(Decoded(c, parse).value))
  {
    var df := Decoded(c, parse);
    if df.None? then idx
    else
      var f := df.value;
      var ms := Monitors.AddMonitor(idx.monitors, MonitorOf(f));
      assert forall m :: Monitors.HasEqual(idx.monitors, m) ==> Monitors.HasEqual(ms, m) by {
        forall m | Monitors.HasEqual(idx.monitors, m) ensures Monitors.HasEqual(ms, m) {
          var k :| 0 <= k < |idx.monitors| && Monitors.Equals(m, idx.monitors[k]);
          assert ms[k] == idx.monitors[k];
        }
      }
      Index(AddToDays(idx.store, DaysInRange(f.startTime, f.endTime), f), ms, idx.updateComplete)
  }

  /** The bucket of every day the file touches gains its path, and only those. */
  lemma ProcessFileHeld(idx: Index, c: Candidate, parse: TimeParser, d: int, p: string)
    requires Valid(idx)
    ensures p in Held(ProcessFile(idx, c, parse).store, d) <==>
              p in Held(idx.store, d) || (Touches(c, parse, d) && p == c.path)
  {
    var df := Decoded(c, parse);
    if df.Some? {
      AddToDaysHeld(idx.store, DaysInRange(df.value.startTime, df.value.endTime), df.value, d, p);
    }
  }

  /** A bucket gains no file but the decoded one, and only on the days it touches. */
  lemma ProcessFileHolds(idx: Index, c: Candidate, parse: TimeParser, d: int, g: DataFile)
    requires Valid(idx)
    ensures Holds(ProcessFile(idx, c, parse).store, d, g) ==>
              Holds(idx.store, d, g) || (Touches(c, parse, d) && g == Decoded(c, parse).value)
  {
    var df := Decoded(c, parse);
    if df.Some? {
      AddToDaysHolds(idx.store, DaysInRange(df.value.startTime, df.value.endTime), df.value, d, g);
    }
  }

  /** `processFilesInDirectory`: every file of the walk, in order. `ProcessAllMonitors` states what it does to the monitors. */
  function ProcessAll(idx: Index, walk: seq<Candidate>, parse: TimeParser): (r: Index)
    requires Valid(idx)
    ensures Valid(r) && r.updateComplete == idx.updateComplete
    ensures B.Coherent(idx.store) ==> B.Coherent(r.store)
    decreases |walk|
  {
    if |walk| == 0 then idx
    else
      var n := |walk| - 1;
      ProcessFile(ProcessAll(idx, walk[..n], parse), walk[n], parse)
  }

  /** A day has a bucket afterwards when it had one before or some walk file is indexed under it. */
  lemma {:induction false} ProcessAllBuckets(idx: Index, walk: seq<Candidate>, parse: TimeParser, d: int)
    requires Valid(idx)
    ensures d in ProcessAll(idx, walk, parse).store.buckets <==> d in idx.store.buckets || IndexedPaths(walk, parse, d) != {}
    decreases |walk|
  {
    if |walk| == 0 {
      assert IndexedPaths(walk, parse, d) == {};
    } else {
      var n := |walk| - 1;
      ProcessAllBuckets(idx, walk[..n], parse, d);
      IndexedPathsSnoc(walk, parse, d);
      if Touches(walk[n], parse, d) {
        assert walk[n].path in IndexedPaths(walk, parse, d);
      }
    }
  }

  /**
   * The monitor set keeps every monitor it had, gains the monitor of every
   * walk file that decodes, and nothing else.
   */
  lemma {:induction false} ProcessAllMonitors(idx: Index, walk: seq<Candidate>, parse: TimeParser)
    requires Valid(idx)
    ensures forall m :: Monitors.HasEqual(idx.monitors, m) ==> Monitors.HasEqual(ProcessAll(idx, walk, parse).monitors, m)
    ensures forall c :: c in walk && Decoded(c, parse).Some? ==>
              Monitors.HasEqual(ProcessAll(idx, walk, parse).monitors, MonitorOf(Decoded(c, parse).value))
    ensures forall m :: m in ProcessAll(idx, walk, parse).monitors ==>
              m in idx.monitors || exists c :: c in walk && Decoded(c, parse).Some? && m == MonitorOf(Decoded(c, parse).value)
    decreases |walk|
  {
    if |walk| > 0 {
      var n := |walk| - 1;
      ProcessAllMonitors(idx, walk[..n], parse);
      var prev := ProcessAll(idx, walk[..n], parse);
      var r := ProcessAll(idx, walk, parse);
      assert r == ProcessFile(prev, walk[n], parse);
      assert forall c :: c in walk <==> c in walk[..n] || c == walk[n] by {
        assert walk == walk[..n] + [walk[n]];
      }
      forall c | c in walk && Decoded(c, parse).Some?
        ensures Monitors.HasEqual(r.monitors, MonitorOf(Decoded(c, parse).value))
      {
        if c != walk[n] {
          assert Monitors.HasEqual(prev.monitors, MonitorOf(Decoded(c, parse).value));
        }
      }
      forall m | m in r.monitors
        ensures m in idx.monitors || exists c :: c in walk && Decoded(c, parse).Some? && m == MonitorOf(Decoded(c, parse).value)
      {
        if m !in prev.monitors {
          assert Decoded(walk[n], parse).Some? && m == MonitorOf(Decoded(walk[n], parse).value);
        }
      }
    }
  }

  /** Each bucket gains the paths of the walk's files indexed under its day. */
  lemma {:induction false} ProcessAllHeld(idx: Index, walk: seq<Candidate>, parse: TimeParser, d: int, p: string)
    requires Valid(idx)
    ensures p in Held(ProcessAll(idx, walk, parse).store, d) <==>
              p in Held(idx.store, d) || p in IndexedPaths(walk, parse, d)
    decreases |walk|
  {
    if |walk| > 0 {
      var n := |walk| - 1;
      ProcessAllHeld(idx, walk[..n], parse, d, p);
      IndexedPathsSnoc(walk, parse, d);
      ProcessFileHeld(ProcessAll(idx, walk[..n], parse), walk[n], parse, d, p);
    }
  }

  /** Each file a bucket gains is the decoding of a walk file indexed under its day. */
  lemma {:induction false} ProcessAllHolds(idx: Index, walk: seq<Candidate>, parse: TimeParser, d: int, g: DataFile)
    requires Valid(idx)
    ensures Holds(ProcessAll(idx, walk, parse).store, d, g) ==>
              Holds(idx.store, d, g) ||
              exists c :: c in walk && Touches(c, parse, d) && g == Decoded(c, parse).value
    decreases |walk|
  {
    if |walk| > 0 {
      var n := |walk| - 1;
      ProcessAllHolds(idx, walk[..n], parse, d, g);
      ProcessFileHolds(ProcessAll(idx, walk[..n], parse), walk[n], parse, d, g);
      assert forall c :: c in walk[..n] ==> c in walk;
      assert walk[n] in walk;
    }
  }

  /** `verifyFiles`: `verify` on every listed bucket. */
  function VerifyAll(s: B.Store, order: seq<int>): (r: B.Store)
    requires B.Valid(s) && forall d :: d in order ==> d in s.buckets
    ensures B.Valid(r) && r.buckets.Keys == s.buckets.Keys
    ensures forall d :: d in order ==> B.ReadFiles(r.buckets[d]) == []
    ensures forall d :: d in s.buckets && d !in order ==> r.buckets[d] == s.buckets[d]
    decreases |order|
  {
    if |order| == 0 then s
    else VerifyAll(B.Verify(s, order[0]), order[1..])
  }

  /** The store after verifying every bucket: all buckets kept, all empty. */
  function Verified(idx: Index, order: seq<int>): (r: Index)
    requires Valid(idx)
    requires forall d :: d in order <==> d in idx.store.buckets
    ensures Valid(r) && r.store.buckets.Keys == idx.store.buckets.Keys
    ensures r.monitors == idx.monitors && r.updateComplete == idx.updateComplete
    ensures forall d :: Held(r.store, d) == {}
    ensures forall d, g :: !Holds(r.store, d, g)
  {
    var s := VerifyAll(idx.store, order);
    assert Paths([]) == {};
    Index(s, idx.monitors, idx.updateComplete)
  }

  /**
   * `UpdateIndexTask.run`: verify every bucket (`order` is the map's
   * iteration order), process the walk, and record that an update finished.
   * `finished` says whether every directory of the walk could be listed. A
   * directory that cannot be listed gives a null listing, and the loop over
   * it throws out of the task: the files found before it are indexed, the
   * emptied buckets stay empty otherwise, and the flag is not raised.
   * `RunRebuilds` states what the buckets then hold.
   */
  function Run(idx: Index, order: seq<int>, walk: seq<Candidate>, finished: bool, parse: TimeParser): (r: Index)
    requires Valid(idx)
    requires forall d :: d in order <==> d in idx.store.buckets
    ensures Valid(r) && (r.updateComplete <==> idx.updateComplete || finished)
    ensures forall d :: d in r.store.buckets <==> d in idx.store.buckets || IndexedPaths(walk, parse, d) != {}
    ensures forall m :: Monitors.HasEqual(idx.monitors, m) ==> Monitors.HasEqual(r.monitors, m)
    ensures forall c :: c in walk && Decoded(c, parse).Some? ==>
              Monitors.HasEqual(r.monitors, MonitorOf(Decoded(c, parse).value))
  {
    ProcessAllMonitors(Verified(idx, order), walk, parse);
    forall d ensures d in ProcessAll(Verified(idx, order), walk, parse).store.buckets <==>
                     d in idx.store.buckets || IndexedPaths(walk, parse, d) != {} {
      ProcessAllBuckets(Verified(idx, order), walk, parse, d);
    }
    ProcessAll(Verified(idx, order), walk, parse).(updateComplete := idx.updateComplete || finished)
  }

  /**
   * Because verification empties every bucket, after an update each bucket
   * holds exactly the paths of the walk's files indexed under its day, and
   * every file it holds is the decoding of such a file.
   */
  lemma RunRebuilds(idx: Index, order: seq<int>, walk: seq<Candidate>, finished: bool, parse: TimeParser, d: int, g: DataFile)
    requires Valid(idx)
    requires forall e :: e in order <==> e in idx.store.buckets
    ensures Held(Run(idx, order, walk, finished, parse).store, d) == IndexedPaths(walk, parse, d)
    ensures Holds(Run(idx, order, walk, finished, parse).store, d, g) ==>
              exists c :: c in walk && Touches(c, parse, d) && g == Decoded(c, parse).value
  {
    forall p ensures p in Held(Run(idx, order, walk, finished, parse).store, d) <==> p in IndexedPaths(walk, parse, d) {
      ProcessAllHeld(Verified(idx, order), walk, parse, d, p);
    }
    ProcessAllHolds(Verified(idx, order), walk, parse, d, g);
  }

  /**
   * `isUpdateComplete` turns true with the first update whose walk lists
   * every directory, and stays so; an update that fails part-way leaves it
   * as it was, and processing a file never changes it.
   */
  lemma UpdateCompleteStays(idx: Index, order: seq<int>, walk: seq<Candidate>, finished: bool, parse: TimeParser, c: Candidate)
    requires Valid(idx)
    requires forall d :: d in order <==> d in idx.store.buckets
    ensures finished || idx.updateComplete ==> Run(idx, order, walk, finished, parse).updateComplete
    ensures !finished ==> Run(idx, order, walk, finished, parse).updateComplete == idx.updateComplete
    ensures ProcessFile(idx, c, parse).updateComplete == idx.updateComplete
    ensures !New().updateComplete
  {
  }

  // ---------------------------------------------------------------------
  // The cache across an update
  // ---------------------------------------------------------------------

  /**
   * Every cached collection is what its bucket holds, except perhaps on the
   * days the walk indexes files under.
   */
  predicate CoherentOffWalk(s: B.Store, walk: seq<Candidate>, parse: TimeParser) {
    C.Aligned(s.cache) &&
    forall p :: p in C.Pairs(s.cache) ==>
      p.0 in s.buckets && (p.1 == B.ReadFiles(s.buckets[p.0]) || IndexedPaths(walk, parse, p.0) != {})
  }

  /**
   * `verify` caches what the bucket held before emptying it. That entry is
   * stale only when the bucket held files, so if every such day is indexed
   * again by the walk, the stale entries stay on the walk's days.
   */
  lemma VerifyOffWalk(s: B.Store, d: int, walk: seq<Candidate>, parse: TimeParser)
    requires B.Valid(s) && d in s.buckets && CoherentOffWalk(s, walk, parse)
    requires B.ReadFiles(s.buckets[d]) == [] || IndexedPaths(walk, parse, d) != {}
    ensures CoherentOffWalk(B.Verify(s, d), walk, parse)
  {
    var r := B.Verify(s, d);
    var v := B.View(s, d);
    assert r.cache == C.Add(s.cache, d, v);
    assert v == B.ReadFiles(s.buckets[d]) || IndexedPaths(walk, parse, d) != {} by {
      if C.Hit(s.cache, d) {
        assert (d, C.Get(s.cache, d)) in C.Pairs(s.cache);
      }
    }
    forall p | p in C.Pairs(r.cache)
      ensures p.0 in r.buckets && (p.1 == B.ReadFiles(r.buckets[p.0]) || IndexedPaths(walk, parse, p.0) != {})
    {
      var ps := C.Pairs(r.cache);
      var i :| 0 <= i < |ps| && ps[i] == p;
      if p.0 == d {
        assert i == |ps| - 1 && p == (d, v);
      } else {
        assert p in C.Pairs(s.cache);
      }
    }
  }

  /** `verifyFiles` keeps the stale entries on the walk's days, under the same condition. */
  lemma {:induction false} VerifyAllOffWalk(s: B.Store, order: seq<int>, walk: seq<Candidate>, parse: TimeParser)
    requires B.Valid(s) && (forall d :: d in order ==> d in s.buckets) && CoherentOffWalk(s, walk, parse)
    requires forall d :: d in s.buckets ==> B.ReadFiles(s.buckets[d]) == [] || IndexedPaths(walk, parse, d) != {}
    ensures CoherentOffWalk(VerifyAll(s, order), walk, parse)
    decreases |order|
  {
    if |order| > 0 {
      var s1 := B.Verify(s, order[0]);
      VerifyOffWalk(s, order[0], walk, parse);
      assert forall d :: d in s1.buckets ==> B.ReadFiles(s1.buckets[d]) == [] || IndexedPaths(walk, parse, d) != {} by {
        forall d | d in s1.buckets ensures B.ReadFiles(s1.buckets[d]) == [] || IndexedPaths(walk, parse, d) != {} {
          if d != order[0] {
            assert s1.buckets[d] == s.buckets[d];
          }
        }
      }
      VerifyAllOffWalk(s1, order[1..], walk, parse);
    }
  }

  /** Adding to one day drops that day's cache entry and touches no other bucket or entry. */
  lemma AddToDayEntries(s: B.Store, d: int, f: DataFile)
    requires B.Valid(s)
    ensures forall p :: p in C.Pairs(AddToDay(s, d, f).cache) ==> p in C.Pairs(s.cache) && p.0 != d
    ensures forall e :: e in s.buckets && e != d ==> AddToDay(s, d, f).buckets[e] == s.buckets[e]
  {
    var s0 := EnsureBucket(s, d);
    assert s0.cache == s.cache;
    B.RemoveKeepsPairs(s0.cache, d);
  }

  /** Adding to the listed days drops their cache entries and touches no other bucket or entry. */
  lemma {:induction false} AddToDaysEntries(s: B.Store, days: seq<int>, f: DataFile)
    requires B.Valid(s)
    ensures forall p :: p in C.Pairs(AddToDays(s, days, f).cache) ==> p in C.Pairs(s.cache) && p.0 !in days
    ensures forall e :: e in s.buckets && e !in days ==> AddToDays(s, days, f).buckets[e] == s.buckets[e]
    decreases |days|
  {
    if |days| > 0 {
      var s1 := AddToDay(s, days[0], f);
      AddToDayEntries(s, days[0], f);
      AddToDaysEntries(s1, days[1..], f);
      assert forall e :: e in days <==> e == days[0] || e in days[1..];
    }
  }

  /** Processing a file drops the cache entry of every day it touches and keeps the other days as they were. */
  lemma ProcessFileEntries(idx: Index, c: Candidate, parse: TimeParser)
    requires Valid(idx)
    ensures forall p :: p in C.Pairs(ProcessFile(idx, c, parse).store.cache) ==>
              p in C.Pairs(idx.store.cache) && !Touches(c, parse, p.0)
    ensures forall e :: e in idx.store.buckets && !Touches(c, parse, e) ==>
              ProcessFile(idx, c, parse).store.buckets[e] == idx.store.buckets[e]
  {
    var df := Decoded(c, parse);
    if df.Some? {
      AddToDaysEntries(idx.store, DaysInRange(df.value.startTime, df.value.endTime), df.value);
    }
  }

  /**
   * Processing the walk drops the cache entry of every day it indexes a file
   * under, and leaves the other days' buckets and entries as they were.
   */
  lemma {:induction false} ProcessAllEntries(idx: Index, walk: seq<Candidate>, parse: TimeParser)
    requires Valid(idx)
    ensures forall p :: p in C.Pairs(ProcessAll(idx, walk, parse).store.cache) ==>
              p in C.Pairs(idx.store.cache) && IndexedPaths(walk, parse, p.0) == {}
    ensures forall e :: e in idx.store.buckets && IndexedPaths(walk, parse, e) == {} ==>
              e in ProcessAll(idx, walk, parse).store.buckets &&
              ProcessAll(idx, walk, parse).store.buckets[e] == idx.store.buckets[e]
    decreases |walk|
  {
    if |walk| > 0 {
      var n := |walk| - 1;
      var prev := ProcessAll(idx, walk[..n], parse);
      var r := ProcessAll(idx, walk, parse);
      assert r == ProcessFile(prev, walk[n], parse);
      ProcessAllEntries(idx, walk[..n], parse);
      ProcessFileEntries(prev, walk[n], parse);
      forall e ensures IndexedPaths(walk, parse, e) == {} <==>
                       IndexedPaths(walk[..n], parse, e) == {} && !Touches(walk[n], parse, e) {
        IndexedPathsSnoc(walk, parse, e);
      }
    }
  }

  /**
   * An update leaves the cache agreeing with the disk when it agreed before
   * and the walk indexes some file again under every day whose bucket held
   * files, as it does when no data file has gone since the last update. The
   * stale entries `verify` leaves are then all on days the walk rewrites.
   */
  lemma RunCoherent(idx: Index, order: seq<int>, walk: seq<Candidate>, finished: bool, parse: TimeParser)
    requires Valid(idx) && (forall d :: d in order <==> d in idx.store.buckets)
    requires B.Coherent(idx.store)
    requires forall d :: d in idx.store.buckets && B.ReadFiles(idx.store.buckets[d]) != [] ==>
               IndexedPaths(walk, parse, d) != {}
    ensures B.Coherent(Run(idx, order, walk, finished, parse).store)
  {
    var v := Verified(idx, order);
    VerifyAllOffWalk(idx.store, order, walk, parse);
    assert v.store == VerifyAll(idx.store, order);
    ProcessAllEntries(v, walk, parse);
  }

  /** The first update of a new index leaves the cache agreeing with the disk. */
  lemma FirstRunCoherent(walk: seq<Candidate>, finished: bool, parse: TimeParser)
    ensures B.Coherent(Run(New(), [], walk, finished, parse).store)
  {
    RunCoherent(New(), [], walk, finished, parse);
  }

  // ---------------------------------------------------------------------
  // Queries
  // ---------------------------------------------------------------------

  /** The query refuses a range longer than one calendar month. */
  datatype IndexError = RangeLongerThanMonth

  /** The file still exists and overlaps the range. */
  predicate InRange(f: DataFile, start: int, end: int, existing: set<string>) {
    f.path in existing && f.startTime < end && f.endTime > start
  }

  /** Reference definition: the paths of the matching files in the listed days' buckets. */
  function MatchingPaths(buckets: map<int, B.DataIndexFile>, days: seq<int>, start: int, end: int,
                         existing: set<string>): set<string> {
    set d, g | d in days && d in buckets && g in B.ReadFiles(buckets[d]) && InRange(g, start, end, existing) :: g.path
  }

  /** The paths of the matching files of one bucket. */
  function DayMatches(files: seq<DataFile>, start: int, end: int, existing: set<string>): set<string> {
    set g | g in files && InRange(g, start, end, existing) :: g.path
  }

  lemma MatchingPathsCons(buckets: map<int, B.DataIndexFile>, days: seq<int>, start: int, end: int,
                          existing: set<string>, p: string)
    requires |days| > 0
    ensures p in MatchingPaths(buckets, days, start, end, existing) <==>
              (days[0] in buckets && p in DayMatches(B.ReadFiles(buckets[days[0]]), start, end, existing)) ||
              p in MatchingPaths(buckets, days[1..], start, end, existing)
  {
    assert forall d :: d in days <==> d == days[0] || d in days[1..];
    if days[0] in buckets && p in DayMatches(B.ReadFiles(buckets[days[0]]), start, end, existing) {
      var g :| g in B.ReadFiles(buckets[days[0]]) && InRange(g, start, end, existing) && g.path == p;
      assert p in MatchingPaths(buckets, days, start, end, existing);
    }
  }

  /** One day of the time-range loop: the day's matching files join the result. */
  function CollectDay(s: B.Store, d: int, start: int, end: int, existing: set<string>,
                      acc: seq<DataFile>): (r: (B.Store, seq<DataFile>))
    requires B.Valid(s)
    ensures B.Valid(r.0) && r.0.buckets == s.buckets
    ensures B.Coherent(s) ==> B.Coherent(r.0)
    ensures UniquePaths(acc) ==> UniquePaths(r.1)
    ensures forall g :: g in acc ==> g in r.1
    ensures forall g :: g in r.1 ==> g in acc || InRange(g, start, end, existing)
    ensures B.Coherent(s) ==> forall g :: g in r.1 ==> g in acc || Holds(s, d, g)
    ensures B.Coherent(s) ==>
              Paths(r.1) == Paths(acc) + (if d in s.buckets then DayMatches(B.ReadFiles(s.buckets[d]), start, end, existing) else {})
  {
    if d in s.buckets then
      var got := B.GetFiles(s, d);
      var keep := (g: DataFile) => InRange(g, start, end, existing);
      var acc1 := DataFileLists.AddMatching(acc, got.1, keep);
      assert (set g | g in got.1 && keep(g) :: g.path) == DayMatches(got.1, start, end, existing);
      (got.0, acc1)
    else (s, acc)
  }

  /** The loop over the days of a time-range query. */
  function CollectDays(s: B.Store, days: seq<int>, start: int, end: int, existing: set<string>,
                       acc: seq<DataFile>): (r: (B.Store, seq<DataFile>))
    requires B.Valid(s)
    ensures B.Valid(r.0) && r.0.buckets == s.buckets
    ensures B.Coherent(s) ==> B.Coherent(r.0)
    ensures UniquePaths(acc) ==> UniquePaths(r.1)
    ensures forall g :: g in acc ==> g in r.1
    ensures forall g :: g in r.1 ==> g in acc || InRange(g, start, end, existing)
    decreases |days|
  {
    if |days| == 0 then (s, acc)
    else
      var step := CollectDay(s, days[0], start, end, existing, acc);
      CollectDays(step.0, days[1..], start, end, existing, step.1)
  }

  /** On a coherent cache the loop adds exactly the matching paths of the listed days. */
  lemma {:induction false} CollectDaysPaths(s: B.Store, days: seq<int>, start: int, end: int, existing: set<string>,
                                            acc: seq<DataFile>, p: string)
    requires B.Valid(s) && B.Coherent(s)
    ensures p in Paths(CollectDays(s, days, start, end, existing, acc).1) <==>
              p in Paths(acc) || p in MatchingPaths(s.buckets, days, start, end, existing)
    decreases |days|
  {
    if |days| > 0 {
      var step := CollectDay(s, days[0], start, end, existing, acc);
      CollectDaysPaths(step.0, days[1..], start, end, existing, step.1, p);
      MatchingPathsCons(s.buckets, days, start, end, existing, p);
    }
  }

  /** On a coherent cache every file the loop adds comes from a listed day's bucket. */
  lemma {:induction false} CollectDaysFrom(s: B.Store, days: seq<int>, start: int, end: int, existing: set<string>,
                                           acc: seq<DataFile>, g: DataFile)
    requires B.Valid(s) && B.Coherent(s)
    ensures g in CollectDays(s, days, start, end, existing, acc).1 ==>
              g in acc || exists d :: d in days && Holds(s, d, g)
    decreases |days|
  {
    if |days| > 0 {
      var step := CollectDay(s, days[0], start, end, existing, acc);
      CollectDaysFrom(step.0, days[1..], start, end, existing, step.1, g);
      assert forall d :: d in days[1..] ==> d in days;
      assert forall d :: Holds(step.0, d, g) <==> Holds(s, d, g);
    }
  }

  /**
   * `getFilesFromTimeRange`: refused when one month after the start is
   * still before the end (so ranges up to 28 days always pass and ranges
   * over 31 days never do); otherwise the existing files of the range's
   * days that overlap the range, each path once. `TimeRangeExact` says
   * which files those are on a coherent cache.
   */
  function GetFilesFromTimeRange(idx: Index, start: int, end: int, existing: set<string>)
    : (r: (Index, Result<DataFileLists.DataFileList, IndexError>))
    requires Valid(idx)
    ensures Valid(r.0) && r.0.store.buckets == idx.store.buckets
    ensures r.0.monitors == idx.monitors && r.0.updateComplete == idx.updateComplete
    ensures B.Coherent(idx.store) ==> B.Coherent(r.0.store)
    ensures r.1.Err? <==> AddMonth(start) < end
    ensures end <= start + 28 * DAY ==> r.1.Ok?
    ensures end > start + 31 * DAY ==> r.1.Err?
    ensures r.1.Ok? ==> UniquePaths(r.1.value.files)
    ensures r.1.Ok? ==> forall g :: g in r.1.value.files ==> InRange(g, start, end, existing)
  {
    AddMonthBounds(start);
    if AddMonth(start) < end then (idx, Err(RangeLongerThanMonth))
    else
      var got := CollectDays(idx.store, DaysInRange(start, end), start, end, existing, []);
      (idx.(store := got.0), Ok(DataFileLists.FromCollection(got.1)))
  }

  /**
   * On a coherent cache an accepted query returns exactly the paths of the
   * matching files in the buckets of the range's days, and nothing else.
   */
  lemma TimeRangeExact(idx: Index, start: int, end: int, existing: set<string>, g: DataFile)
    requires Valid(idx) && B.Coherent(idx.store)
    requires end <= AddMonth(start)
    ensures var q := GetFilesFromTimeRange(idx, start, end, existing).1;
            q.Ok? && Paths(q.value.files) == MatchingPaths(idx.store.buckets, DaysInRange(start, end), start, end, existing)
    ensures var q := GetFilesFromTimeRange(idx, start, end, existing).1;
            g in q.value.files ==> exists d :: d in DaysInRange(start, end) && Holds(idx.store, d, g)
  {
    var days := DaysInRange(start, end);
    assert Paths([]) == {};
    forall p ensures p in Paths(CollectDays(idx.store, days, start, end, existing, []).1) <==>
                     p in MatchingPaths(idx.store.buckets, days, start, end, existing) {
      CollectDaysPaths(idx.store, days, start, end, existing, [], p);
    }
    CollectDaysFrom(idx.store, days, start, end, existing, [], g);
  }

  /** A file's paths are distinct in the walk: a directory lists each path once. */
  predicate DistinctPaths(walk: seq<Candidate>) {
    forall i, j :: 0 <= i < j < |walk| ==> walk[i].path != walk[j].path
  }

  /** A file found by the walk is listed in the rebuilt bucket of every day it touches. */
  lemma RebuiltBucketHolds(idx: Index, order: seq<int>, walk: seq<Candidate>, finished: bool, parse: TimeParser,
                           c: Candidate, d: int)
    requires Valid(idx) && (forall e :: e in order <==> e in idx.store.buckets)
    requires DistinctPaths(walk) && c in walk && Touches(c, parse, d)
    ensures Holds(Run(idx, order, walk, finished, parse).store, d, Decoded(c, parse).value)
  {
    var r := Run(idx, order, walk, finished, parse).store;
    var f := Decoded(c, parse).value;
    RunRebuilds(idx, order, walk, finished, parse, d, f);
    assert c.path in IndexedPaths(walk, parse, d);
    assert c.path in Held(r, d);
    var g :| g in B.ReadFiles(r.buckets[d]) && g.path == c.path;
    RunRebuilds(idx, order, walk, finished, parse, d, g);
    var c2 :| c2 in walk && Touches(c2, parse, d) && g == Decoded(c2, parse).value;
    SamePathSameCandidate(walk, c, c2);
  }

  lemma SamePathSameCandidate(walk: seq<Candidate>, c: Candidate, c2: Candidate)
    requires DistinctPaths(walk) && c in walk && c2 in walk && c.path == c2.path
    ensures c == c2
  {
    var i :| 0 <= i < |walk| && walk[i] == c;
    var j :| 0 <= j < |walk| && walk[j] == c2;
    assert i == j;
  }

  /**
   * After an update, on a coherent cache, a time-range query that is not
   * refused returns every file of the walk that still exists and overlaps
   * the range.
   */
  lemma QueryFindsRebuiltFiles(idx: Index, order: seq<int>, walk: seq<Candidate>, finished: bool, parse: TimeParser,
                               start: int, end: int, existing: set<string>, c: Candidate)
    requires Valid(idx) && (forall e :: e in order <==> e in idx.store.buckets)
    requires DistinctPaths(walk) && B.Coherent(Run(idx, order, walk, finished, parse).store)
    requires start < end <= AddMonth(start)
    requires c in walk && Decoded(c, parse).Some?
    requires Decoded(c, parse).value.startTime < Decoded(c, parse).value.endTime
    requires InRange(Decoded(c, parse).value, start, end, existing)
    ensures var q := GetFilesFromTimeRange(Run(idx, order, walk, finished, parse), start, end, existing).1;
            q.Ok? && Decoded(c, parse).value in q.value.files
  {
    var idx2 := Run(idx, order, walk, finished, parse);
    var f := Decoded(c, parse).value;
    var d := OverlapDay(f.startTime, f.endTime, start, end);
    RebuiltBucketHolds(idx, order, walk, finished, parse, c, d);
    var q := GetFilesFromTimeRange(idx2, start, end, existing).1;
    TimeRangeExact(idx2, start, end, existing, f);
    assert f.path in MatchingPaths(idx2.store.buckets, DaysInRange(start, end), start, end, existing);
    var h :| h in q.value.files && h.path == f.path;
    TimeRangeExact(idx2, start, end, existing, h);
    var d2 :| d2 in DaysInRange(start, end) && Holds(idx2.store, d2, h);
    RunRebuilds(idx, order, walk, finished, parse, d2, h);
    var c2 :| c2 in walk && Touches(c2, parse, d2) && h == Decoded(c2, parse).value;
    SamePathSameCandidate(walk, c, c2);
  }

  /**
   * The same for an update whose walk indexes again every day that held
   * files, on a cache that agreed with the disk: no agreement is assumed
   * afterwards.
   */
  lemma QueryFindsUpdatedFiles(idx: Index, order: seq<int>, walk: seq<Candidate>, finished: bool, parse: TimeParser,
                               start: int, end: int, existing: set<string>, c: Candidate)
    requires Valid(idx) && (forall e :: e in order <==> e in idx.store.buckets) && B.Coherent(idx.store)
    requires forall d :: d in idx.store.buckets && B.ReadFiles(idx.store.buckets[d]) != [] ==>
               IndexedPaths(walk, parse, d) != {}
    requires DistinctPaths(walk) && start < end <= AddMonth(start)
    requires c in walk && Decoded(c, parse).Some?
    requires Decoded(c, parse).value.startTime < Decoded(c, parse).value.endTime
    requires InRange(Decoded(c, parse).value, start, end, existing)
    ensures var q := GetFilesFromTimeRange(Run(idx, order, walk, finished, parse), start, end, existing).1;
            q.Ok? && Decoded(c, parse).value in q.value.files
  {
    RunCoherent(idx, order, walk, finished, parse);
    QueryFindsRebuiltFiles(idx, order, walk, finished, parse, start, end, existing, c);
  }

  /** After the first update of a new index, a query finds every file of the walk that exists and overlaps the range. */
  lemma QueryFindsFirstRunFiles(walk: seq<Candidate>, finished: bool, parse: TimeParser,
                                start: int, end: int, existing: set<string>, c: Candidate)
    requires DistinctPaths(walk) && start < end <= AddMonth(start)
    requires c in walk && Decoded(c, parse).Some?
    requires Decoded(c, parse).value.startTime < Decoded(c, parse).value.endTime
    requires InRange(Decoded(c, parse).value, start, end, existing)
    ensures var q := GetFilesFromTimeRange(Run(New(), [], walk, finished, parse), start, end, existing).1;
            q.Ok? && Decoded(c, parse).value in q.value.files
  {
    FirstRunCoherent(walk, finished, parse);
    QueryFindsRebuiltFiles(New(), [], walk, finished, parse, start, end, existing, c);
  }

  /** The loop of `hasFilesInRange` over the listed days, stopping at the first hit. */
  function HasFilesOnDays(s: B.Store, days: seq<int>, monitors: Option<seq<Monitors.MonitorInfo>>)
    : (r: (B.Store, bool))
    requires B.Valid(s)
    ensures B.Valid(r.0) && r.0.buckets == s.buckets
    ensures B.Coherent(s) ==> B.Coherent(r.0)
    ensures B.Coherent(s) ==>
              (r.1 <==> exists d :: d in days && d in s.buckets && B.HasFilesFor(B.ReadFiles(s.buckets[d]), monitors))
    ensures r.1 ==> exists d :: d in days && d in s.buckets && s.buckets[d].count > 0
    decreases |days|
  {
    if |days| == 0 then (s, false)
    else
      var d := days[0];
      assert forall e :: e in days <==> e == d || e in days[1..];
      if d in s.buckets then
        var h := B.HasFiles(s, d, monitors);
        if h.1 then h
        else HasFilesOnDays(h.0, days[1..], monitors)
      else HasFilesOnDays(s, days[1..], monitors)
  }

  /**
   * `hasFilesInRange`: some bucket of the range's days has a file of one of
   * the monitors (of any monitor when none are given).
   */
  function HasFilesInRange(idx: Index, start: int, end: int, monitors: Option<seq<Monitors.MonitorInfo>>)
    : (r: (Index, bool))
    requires Valid(idx)
    ensures Valid(r.0) && r.0.store.buckets == idx.store.buckets
    ensures r.0.monitors == idx.monitors && r.0.updateComplete == idx.updateComplete
    ensures B.Coherent(idx.store) ==> B.Coherent(r.0.store)
    ensures B.Coherent(idx.store) ==>
              (r.1 <==> exists d :: d % DAY == 0 && DateResolution(start) <= d < end && d in idx.store.buckets &&
                                    B.HasFilesFor(B.ReadFiles(idx.store.buckets[d]), monitors))
  {
    var h := HasFilesOnDays(idx.store, DaysInRange(start, end), monitors);
    (idx.(store := h.0), h.1)
  }

  /** The first day `getDaysWithData` looks at: `getCalendar(2003, 1, 1)`, month 1 being February. */
  const DATA_START: int := GetCalendar(2003, 1, 1)

  /** The scan begins on February 1, 2003, not on January 1. */
  lemma DataStartIsFebruaryFirst(t: int)
    requires t == DATA_START
    ensures t == 1_044_057_600_000
    ensures CivilFromDays(DayNumber(t)) == Civil(2003, 1, 1)
  {
    assert LeapsBefore(2003) == 485;
    assert YearStart(2003) == 12053;
    assert DaysBeforeMonth(2003, 1) == 31;
    GetCalendarOfValid(Civil(2003, 1, 1));
  }

  /** Each element is smaller than every later one. */
  predicate Increasing(xs: seq<int>) {
    forall i, j :: 0 <= i < j < |xs| ==> xs[i] < xs[j]
  }

  lemma IncreasingCons(c: int, xs: seq<int>)
    requires Increasing(xs) && forall x :: x in xs ==> c < x
    ensures Increasing([c] + xs)
  {
    var ys := [c] + xs;
    forall i, j | 0 <= i < j < |ys| ensures ys[i] < ys[j] {
      assert ys[j] == xs[j - 1] && xs[j - 1] in xs;
      if i > 0 {
        assert ys[i] == xs[i - 1];
      }
    }
  }

  /** The loop of `getDaysWithData`: the listed days whose one-day range has files, in order. */
  function DaysWithData(s: B.Store, days: seq<int>, monitors: Option<seq<Monitors.MonitorInfo>>)
    : (r: (B.Store, seq<int>))
    requires B.Valid(s)
    ensures B.Valid(r.0) && r.0.buckets == s.buckets
    ensures B.Coherent(s) ==> B.Coherent(r.0)
    ensures |r.1| <= |days|
    decreases |days|
  {
    if |days| == 0 then (s, [])
    else
      var c := days[0];
      var h := HasFilesOnDays(s, DaysInRange(c, AddDays(c, 1)), monitors);
      var rest := DaysWithData(h.0, days[1..], monitors);
      if h.1 then (rest.0, [c] + rest.1) else (rest.0, rest.1)
  }

  /** The loop keeps some of the listed days, in their order. */
  lemma {:induction false} DaysWithDataOrdered(s: B.Store, days: seq<int>, monitors: Option<seq<Monitors.MonitorInfo>>)
    requires B.Valid(s)
    ensures forall x :: x in DaysWithData(s, days, monitors).1 ==> x in days
    ensures Increasing(days) ==> Increasing(DaysWithData(s, days, monitors).1)
    decreases |days|
  {
    if |days| > 0 {
      var c := days[0];
      var h := HasFilesOnDays(s, DaysInRange(c, AddDays(c, 1)), monitors);
      DaysWithDataOrdered(h.0, days[1..], monitors);
      IncreasingStep(days, DaysWithData(h.0, days[1..], monitors).1);
    }
  }

  /** A subsequence of the tail, with or without the head in front, stays within the list and in its order. */
  lemma IncreasingStep(days: seq<int>, rest: seq<int>)
    requires |days| > 0
    requires forall x :: x in rest ==> x in days[1..]
    requires Increasing(days[1..]) ==> Increasing(rest)
    ensures forall x :: x in [days[0]] + rest ==> x in days
    ensures Increasing(days) ==> Increasing(rest) && Increasing([days[0]] + rest)
  {
    assert forall e :: e in days[1..] ==> e in days;
    if Increasing(days) {
      forall x | x in rest ensures days[0] < x {
        var k :| 0 <= k < |days[1..]| && days[1..][k] == x;
        assert days[k + 1] == x;
      }
      assert Increasing(days[1..]);
      IncreasingCons(days[0], rest);
    }
  }

  /** On a coherent cache the loop keeps exactly the listed days whose bucket has files of the monitors. */
  lemma {:induction false} DaysWithDataExact(s: B.Store, days: seq<int>, monitors: Option<seq<Monitors.MonitorInfo>>, x: int)
    requires B.Valid(s) && B.Coherent(s)
    requires forall i :: 0 <= i < |days| ==> days[i] % DAY == 0
    ensures x in DaysWithData(s, days, monitors).1 <==>
              x in days && x in s.buckets && B.HasFilesFor(B.ReadFiles(s.buckets[x]), monitors)
    decreases |days|
  {
    if |days| > 0 {
      var c := days[0];
      OneDayHasFiles(s, c, monitors);
      var h := HasFilesOnDays(s, DaysInRange(c, AddDays(c, 1)), monitors);
      DaysWithDataExact(h.0, days[1..], monitors, x);
      assert x in days <==> x == c || x in days[1..];
    }
  }

  /** The one-day range of a midnight has files exactly when that day's bucket does. */
  lemma OneDayHasFiles(s: B.Store, c: int, monitors: Option<seq<Monitors.MonitorInfo>>)
    requires B.Valid(s) && B.Coherent(s) && c % DAY == 0
    ensures var h := HasFilesOnDays(s, DaysInRange(c, AddDays(c, 1)), monitors);
            B.Coherent(h.0) && h.0.buckets == s.buckets &&
            (h.1 <==> c in s.buckets && B.HasFilesFor(B.ReadFiles(s.buckets[c]), monitors))
  {
    DaysInRangeOneDay(c);
  }

  /** The days from midnight `first` up to `now` with files of the monitors. */
  function DaysWithDataSince(idx: Index, monitors: Option<seq<Monitors.MonitorInfo>>, first: int, now: int)
    : (r: (Index, seq<int>))
    requires Valid(idx) && first % DAY == 0
    ensures Valid(r.0) && r.0.store.buckets == idx.store.buckets
    ensures r.0.monitors == idx.monitors && r.0.updateComplete == idx.updateComplete
    ensures Increasing(r.1)
    ensures forall x :: x in r.1 ==> x % DAY == 0 && first <= x < now
    ensures B.Coherent(idx.store) ==> B.Coherent(r.0.store)
  {
    DateResolutionOfDay(first, first);
    var days := DaysInRange(first, now);
    assert Increasing(days) by {
      forall i, j | 0 <= i < j < |days| ensures days[i] < days[j] {
        DaysInRangeIncreasing(days, i, j);
      }
    }
    var got := DaysWithData(idx.store, days, monitors);
    DaysWithDataOrdered(idx.store, days, monitors);
    (idx.(store := got.0), got.1)
  }

  /** On a coherent cache the days listed are exactly those since `first` with files of the monitors. */
  lemma DaysWithDataSinceExact(idx: Index, monitors: Option<seq<Monitors.MonitorInfo>>, first: int, now: int, x: int)
    requires Valid(idx) && B.Coherent(idx.store) && first % DAY == 0
    ensures x in DaysWithDataSince(idx, monitors, first, now).1 <==>
              x % DAY == 0 && first <= x < now && x in idx.store.buckets &&
              B.HasFilesFor(B.ReadFiles(idx.store.buckets[x]), monitors)
  {
    DateResolutionOfDay(first, first);
    DaysWithDataExact(idx.store, DaysInRange(first, now), monitors, x);
  }

  /**
   * `getDaysWithData`: the days from February 1, 2003 up to `now` (the
   * clock reading) on which the monitors have files.
   */
  function GetDaysWithData(idx: Index, monitors: Option<seq<Monitors.MonitorInfo>>, now: int)
    : (r: (Index, seq<int>))
    requires Valid(idx)
    ensures Valid(r.0) && r.0.store.buckets == idx.store.buckets
    ensures r.0.monitors == idx.monitors && r.0.updateComplete == idx.updateComplete
    ensures B.Coherent(idx.store) ==> B.Coherent(r.0.store)
  {
    DaysWithDataSince(idx, monitors, DATA_START, now)
  }

  /**
   * The days come in increasing order, each a midnight from the start up to
   * `now`; on a coherent cache they are exactly the days with files of the
   * monitors.
   */
  lemma GetDaysWithDataExact(idx: Index, monitors: Option<seq<Monitors.MonitorInfo>>, now: int, x: int)
    requires Valid(idx)
    ensures Increasing(GetDaysWithData(idx, monitors, now).1)
    ensures x in GetDaysWithData(idx, monitors, now).1 ==> x % DAY == 0 && DATA_START <= x < now
    ensures B.Coherent(idx.store) ==>
              (x in GetDaysWithData(idx, monitors, now).1 <==>
                 x % DAY == 0 && DATA_START <= x < now && x in idx.store.buckets &&
                 B.HasFilesFor(B.ReadFiles(idx.store.buckets[x]), monitors))
  {
    if B.Coherent(idx.store) {
      DaysWithDataSinceExact(idx, monitors, DATA_START, now, x);
    }
  }

  lemma {:induction false} DaysInRangeIncreasing(days: seq<int>, i: int, j: int)
    requires forall k :: 0 < k < |days| ==> days[k] == days[k - 1] + DAY
    requires 0 <= i < j < |days|
    ensures days[i] < days[j]
    decreases j - i
  {
    if j > i + 1 {
      DaysInRangeIncreasing(days, i, j - 1);
    }
  }

  /**
   * `getMonitors`: the monitor hash set copied into a list, then sorted by the
   * ordering when one is given. `listed` is the set's iteration order, a
   * permutation of its members fixed by hash codes the model does not
   * compute; unsorted, the list comes back in that order.
   */
  function GetMonitors(idx: Index, listed: seq<Monitors.MonitorInfo>, comp: Option<MonitorComparators.Ordering>)
    : (r: seq<Monitors.MonitorInfo>)
    requires Valid(idx) && multiset(listed) == multiset(idx.monitors)
    ensures multiset(r) == multiset(idx.monitors)
    ensures comp.Some? ==> MonitorComparators.Sorted(comp.value, r)
    ensures comp.None? ==> r == listed
  {
    assert MonitorComparators.AllComplete(listed) by {
      forall i | 0 <= i < |listed| ensures Monitors.Complete(listed[i]) {
        assert listed[i] in multiset(idx.monitors);
      }
    }
    if comp.None? then listed else MonitorComparators.Sort(comp.value, listed)
  }
}
