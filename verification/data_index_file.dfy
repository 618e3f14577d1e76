/**
 * The filesystem index's day buckets. Each day with data has an index file
 * holding the data files that cover some of that day; the bucket remembers
 * how many it wrote. Reads go through the shared cache of recently read
 * buckets. Disk writes and reads are modelled as never failing.
 */
module DataIndexFiles {
  import opened Results
  import opened DataFiles
  import Monitors
  import C = IndexFileCache

  /** One index file: its day, the number of files written, and the files on disk. */
  datatype DataIndexFile = DataIndexFile(date: int, count: nat, stored: seq<DataFile>)

  /** The buckets by day and the cache in front of them. */
  datatype Store = Store(buckets: map<int, DataIndexFile>, cache: C.Cache)

  /** A bucket sits under its own day and its count is the size of what it wrote. */
  predicate BucketOk(d: int, b: DataIndexFile) {
    b.date == d && b.count == |b.stored| && UniquePaths(b.stored)
  }

  /** The representation invariant every operation preserves. */
  predicate Valid(s: Store) {
    (forall d :: d in s.buckets ==> BucketOk(d, s.buckets[d])) &&
    C.Aligned(s.cache) && C.DistinctKeys(s.cache) && |s.cache.keys| <= C.CACHE_SIZE &&
    (forall p :: p in C.Pairs(s.cache) ==> p.0 in s.buckets && UniquePaths(p.1))
  }

  /** Caching a collection of unique paths for a bucket keeps the store valid and, if it is what the disk holds, coherent. */
  lemma CacheKeepsValid(s: Store, d: int, v: seq<DataFile>)
    requires d in s.buckets && Valid(s) && UniquePaths(v)
    ensures Valid(Store(s.buckets, C.Add(s.cache, d, v)))
    ensures Coherent(s) && v == ReadFiles(s.buckets[d]) ==> Coherent(Store(s.buckets, C.Add(s.cache, d, v)))
  {
  }

  /** Rewriting a bucket after dropping its cache entry keeps the store valid and coherent. */
  lemma RewriteKeepsValid(s: Store, d: int, b: DataIndexFile)
    requires d in s.buckets && Valid(s) && BucketOk(d, b)
    ensures Valid(Store(s.buckets[d := b], C.Remove(s.cache, d)))
    ensures Coherent(s) ==> Coherent(Store(s.buckets[d := b], C.Remove(s.cache, d)))
  {
    RewriteValid(s, d, b);
    if Coherent(s) {
      RewriteCoherent(s, d, b);
    }
  }

  lemma RewriteValid(s: Store, d: int, b: DataIndexFile)
    requires d in s.buckets && Valid(s) && BucketOk(d, b)
    ensures Valid(Store(s.buckets[d := b], C.Remove(s.cache, d)))
  {
    var r := Store(s.buckets[d := b], C.Remove(s.cache, d));
    RemoveKeepsPairs(s.cache, d);
    C.DistinctAfterRemove(s.cache, d);
    forall e | e in r.buckets ensures BucketOk(e, r.buckets[e]) {
    }
    forall p | p in C.Pairs(r.cache) ensures p.0 in r.buckets && UniquePaths(p.1) {
      assert p in C.Pairs(s.cache);
    }
  }

  lemma RewriteCoherent(s: Store, d: int, b: DataIndexFile)
    requires d in s.buckets && Coherent(s)
    ensures Coherent(Store(s.buckets[d := b], C.Remove(s.cache, d)))
  {
    var r := Store(s.buckets[d := b], C.Remove(s.cache, d));
    RemoveKeepsPairs(s.cache, d);
    forall p | p in C.Pairs(r.cache) ensures p.0 in r.buckets && p.1 == ReadFiles(r.buckets[p.0]) {
      assert p in C.Pairs(s.cache);
    }
  }

  /** Dropping a day's cache entries keeps the other entries and never grows the cache. */
  lemma RemoveKeepsPairs(c: C.Cache, d: int)
    requires C.Aligned(c)
    ensures |C.Remove(c, d).keys| <= |c.keys|
    ensures forall p :: p in C.Pairs(C.Remove(c, d)) ==> p in C.Pairs(c) && p.0 != d
  {
    assert |C.Pairs(C.Remove(c, d))| <= |C.Pairs(c)|;
  }

  function EmptyStore(): (s: Store)
    ensures Valid(s)
  {
    Store(map[], C.Empty())
  }

  /** The constructor: a new, empty index file for a day. */
  function NewBucket(d: int): (b: DataIndexFile)
    ensures BucketOk(d, b) && ReadFiles(b) == []
  {
    DataIndexFile(d, 0, [])
  }

  /** `readFiles`: nothing is read when the count is zero. */
  function ReadFiles(b: DataIndexFile): seq<DataFile> {
    if b.count == 0 then [] else b.stored
  }

  /** `writeFiles`: the collection is written and its size remembered. */
  function WriteFiles(b: DataIndexFile, files: seq<DataFile>): (r: DataIndexFile)
    ensures UniquePaths(files) ==> BucketOk(b.date, r) && ReadFiles(r) == files
  {
    b.(count := |files|, stored := files)
  }

  /**
   * Every cached collection is what its bucket holds on disk. The cache is
   * not kept coherent by every operation (see `VerifyLeavesStaleEntry`), so
   * results that depend on it are stated under this condition.
   */
  predicate Coherent(s: Store) {
    C.Aligned(s.cache) &&
    forall p :: p in C.Pairs(s.cache) ==> p.0 in s.buckets && p.1 == ReadFiles(s.buckets[p.0])
  }

  /** What `getFiles` returns for a day: the cached collection, or else a read from disk. */
  function View(s: Store, d: int): seq<DataFile>
    requires d in s.buckets && C.Aligned(s.cache)
  {
    if C.Hit(s.cache, d) then C.Get(s.cache, d) else ReadFiles(s.buckets[d])
  }

  lemma ViewCoherent(s: Store, d: int)
    requires d in s.buckets && Coherent(s)
    ensures View(s, d) == ReadFiles(s.buckets[d])
  {
  }

  /**
   * `getFiles`: the day's collection, from the cache on a hit and from disk
   * otherwise; either way it becomes the most recent cache entry. On a
   * coherent store this is what the disk holds and coherence is kept.
   */
  function GetFiles(s: Store, d: int): (r: (Store, seq<DataFile>))
    requires d in s.buckets && Valid(s)
    ensures Valid(r.0) && r.0.buckets == s.buckets
    ensures C.Hit(r.0.cache, d) && r.0.cache.keys[|r.0.cache.keys| - 1] == d && C.Get(r.0.cache, d) == r.1
    ensures Coherent(s) ==> r.1 == ReadFiles(s.buckets[d]) && Coherent(r.0)
    ensures UniquePaths(r.1) && r.1 == View(s, d)
  {
    var files := View(s, d);
    CacheKeepsValid(s, d, files);
    var cache := C.Add(s.cache, d, files);
    (Store(s.buckets, cache), files)
  }

  /**
   * `addFile`: the day's cache entry is dropped, then the file joins what is
   * on disk unless a file with its path is already there.
   */
  function AddFile(s: Store, d: int, f: DataFile): (r: Store)
    requires d in s.buckets && Valid(s)
    ensures Valid(r) && r.buckets.Keys == s.buckets.Keys && !C.Hit(r.cache, d)
    ensures Paths(ReadFiles(r.buckets[d])) == Paths(ReadFiles(s.buckets[d])) + {f.path}
    ensures forall g :: g in ReadFiles(s.buckets[d]) ==> g in ReadFiles(r.buckets[d])
    ensures forall g :: g in ReadFiles(r.buckets[d]) ==> g in ReadFiles(s.buckets[d]) || g == f
    ensures f.path in Paths(ReadFiles(s.buckets[d])) ==> r.buckets[d].count == s.buckets[d].count
    ensures f.path !in Paths(ReadFiles(s.buckets[d])) ==> r.buckets[d].count == s.buckets[d].count + 1
    ensures forall e :: e in s.buckets && e != d ==> r.buckets[e] == s.buckets[e]
    ensures Coherent(s) ==> Coherent(r)
  {
    var cache := C.Remove(s.cache, d);
    var b := s.buckets[d];
    var files := AddByPath(ReadFiles(b), f);
    RewriteKeepsValid(s, d, WriteFiles(b, files));
    Store(s.buckets[d := WriteFiles(b, files)], cache)
  }

  /** Adding the same file twice leaves the bucket as the first addition did. */
  lemma AddFileTwice(s: Store, d: int, f: DataFile)
    requires d in s.buckets && Valid(s)
    ensures AddFile(AddFile(s, d, f), d, f).buckets == AddFile(s, d, f).buckets
  {
  }

  /**
   * `verify` as written: the loop's first test dereferences a file variable
   * that is still null, so a non-empty collection always ends in the
   * exception handler, which writes an empty collection; an empty one is
   * written back empty. Every bucket is therefore emptied.
   */
  function Verify(s: Store, d: int): (r: Store)
    requires d in s.buckets && Valid(s)
    ensures Valid(r) && r.buckets.Keys == s.buckets.Keys
    ensures r.buckets[d].count == 0 && ReadFiles(r.buckets[d]) == []
    ensures forall e :: e in s.buckets && e != d ==> r.buckets[e] == s.buckets[e]
    ensures C.Hit(r.cache, d) && C.Get(r.cache, d) == View(s, d)
  {
    var got := GetFiles(s, d);
    var s1, files := got.0, got.1;
    var b := s1.buckets[d];
    var written := if |files| == 0 then WriteFiles(b, files) else WriteFiles(b, []);
    WriteKeepsValid(s1, d, written);
    Store(s1.buckets[d := written], s1.cache)
  }

  /** Rewriting one bucket in place, cache untouched, keeps the store valid and the other buckets. */
  lemma WriteKeepsValid(s: Store, d: int, b: DataIndexFile)
    requires d in s.buckets && Valid(s) && BucketOk(d, b)
    ensures var r := Store(s.buckets[d := b], s.cache);
            Valid(r) && r.buckets.Keys == s.buckets.Keys &&
            forall e :: e in s.buckets && e != d ==> r.buckets[e] == s.buckets[e]
  {
    var r := Store(s.buckets[d := b], s.cache);
    forall e | e in r.buckets ensures BucketOk(e, r.buckets[e]) {
    }
    forall p | p in C.Pairs(r.cache) ensures p.0 in r.buckets && UniquePaths(p.1) {
    }
  }

  /**
   * The emptied bucket keeps the collection `getFiles` cached, so after
   * `verify` of a non-empty coherent bucket the cache no longer matches the
   * disk.
   */
  lemma VerifyLeavesStaleEntry(s: Store, d: int)
    requires d in s.buckets && Valid(s) && Coherent(s)
    requires ReadFiles(s.buckets[d]) != []
    ensures !Coherent(Verify(s, d))
  {
    var r := Verify(s, d);
    var v := C.Get(r.cache, d);
    assert (d, v) in C.Pairs(r.cache);
    assert v != ReadFiles(r.buckets[d]);
  }

  /**
   * What `verify` evidently intends: keep only the files that still exist.
   * The iterator removes them from the collection `getFiles` has just cached
   * at the tail, so that entry shrinks along with the disk copy; re-adding
   * the kept files for the same day models that in-place change.
   */
  function VerifyIntended(s: Store, d: int, existing: set<string>): (r: Store)
    requires d in s.buckets && Valid(s)
    ensures Valid(r) && r.buckets.Keys == s.buckets.Keys
    ensures forall e :: e in s.buckets && e != d ==> r.buckets[e] == s.buckets[e]
    ensures forall g :: g in ReadFiles(r.buckets[d]) <==> g in View(s, d) && g.path in existing
    ensures Coherent(s) ==> Coherent(r)
  {
    var got := GetFiles(s, d);
    var kept := KeepExisting(got.1, existing);
    WriteAndCache(got.0, d, kept);
    Store(got.0.buckets[d := WriteFiles(got.0.buckets[d], kept)], C.Add(got.0.cache, d, kept))
  }

  /** Writing a collection to a bucket and caching that same collection keeps the store valid and coherent. */
  lemma WriteAndCache(s: Store, d: int, v: seq<DataFile>)
    requires d in s.buckets && Valid(s) && UniquePaths(v)
    ensures var r := Store(s.buckets[d := WriteFiles(s.buckets[d], v)], C.Add(s.cache, d, v));
            Valid(r) && (Coherent(s) ==> Coherent(r)) && ReadFiles(r.buckets[d]) == v &&
            r.buckets.Keys == s.buckets.Keys && forall e :: e in s.buckets && e != d ==> r.buckets[e] == s.buckets[e]
  {
    var r := Store(s.buckets[d := WriteFiles(s.buckets[d], v)], C.Add(s.cache, d, v));
    if Coherent(s) {
      forall p | p in C.Pairs(r.cache) ensures p.0 in r.buckets && p.1 == ReadFiles(r.buckets[p.0]) {
        if p != (d, v) {
          assert p in C.Pairs(s.cache);
        }
      }
    }
  }

  /** The files of the collection whose path still exists, in order. */
  function KeepExisting(files: seq<DataFile>, existing: set<string>): (r: seq<DataFile>)
    ensures forall g :: g in r <==> g in files && g.path in existing
    ensures Paths(r) == Paths(files) * existing
    ensures UniquePaths(files) ==> UniquePaths(r)
    ensures |r| <= |files|
  {
    if |files| == 0 then []
    else
      PathsCons(files);
      var rest := KeepExisting(files[1..], existing);
      if files[0].path in existing then
        assert forall g :: g in rest ==> g in files[1..];
        [files[0]] + rest
      else rest
  }

  /** A bucket has a file of the monitors when one of its files was made by one of them. */
  predicate HasFilesFor(files: seq<DataFile>, monitors: Option<seq<Monitors.MonitorInfo>>) {
    exists f :: f in files &&
      (monitors.None? || |monitors.value| == 0 ||
       exists m :: m in monitors.value && Monitors.Equals(MonitorOf(f), m))
  }

  /**
   * `hasFiles`: false for an empty bucket, true for a non-empty one when no
   * monitors are asked for, and otherwise whether some file of the bucket
   * was made by one of the monitors. On a coherent store that is exactly
   * `HasFilesFor` of what the disk holds.
   */
  function HasFiles(s: Store, d: int, monitors: Option<seq<Monitors.MonitorInfo>>): (r: (Store, bool))
    requires d in s.buckets && Valid(s)
    ensures Valid(r.0) && r.0.buckets == s.buckets
    ensures Coherent(s) ==> Coherent(r.0) && (r.1 <==> HasFilesFor(ReadFiles(s.buckets[d]), monitors))
    ensures s.buckets[d].count == 0 ==> !r.1
  {
    var b := s.buckets[d];
    if b.count == 0 then (s, false)
    else if monitors.None? || |monitors.value| == 0 then
      assert b.stored[0] in ReadFiles(b);
      (s, true)
    else
      var (s1, files) := GetFiles(s, d);
      (s1, exists f, m :: f in files && m in monitors.value && Monitors.Equals(MonitorOf(f), m))
  }
}
