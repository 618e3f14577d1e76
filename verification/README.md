# SID data index — a Dafny model

This project models the data index of the Stanford SID database browser.
The browser finds the data files that SID monitors upload, each file holding one monitor's
measurements over a time span. The model covers the following parts:

- **The filesystem index.** This is one small index file per GMT day, listing the data files
  that cover the day. It has three pieces:
  - `addFile`, `getFiles`, `verify` and `hasFiles` on the day files;
  - a 31-entry cache of day lists, which evicts its oldest entry first;
  - the update task. The task verifies every day and then walks the data directory. Each
    `.dat`, `.csv` or `.txt` file is parsed and added to every day it covers.
- **Queries over the index:** `getFilesFromTimeRange` (at most one month),
  `hasFilesInRange`, `getDaysWithData` (from 1 February 2003) and `getMonitors`.
- **`DataFileIndex.getInstance`.** It chooses between the filesystem index, which is stored
  in the servlet context, and a fresh show_info index.
- **The pure parts of the show_info index:** column lookup in a response header, the one-week
  guard, monitor matching by identifier, and the SQL monitor filter with its injection-safe
  string separator.
- **The supporting classes:**
  - `CalendarUtil`: day, month and year truncation, the lenient `getCalendar`, and the days of
    a range;
  - `DataFile`: the constructors, the metadata header parser with its fallbacks, the
    validation, and equality by path;
  - `MonitorInfo`: equality and hash, the text form, and the identifier test;
  - the four `MonitorComparators`;
  - `DataFileList`: its filters and monitor listings.
- **GOES flares.** The model covers `GoesFlareStrength` and the parsing and filtering inside
  `GoesDataSource.getListForRange`.

## Modelling choices

- Times are GMT instants in milliseconds, as `int`. A day is `86_400_000` ms.
  - The calendar is the proleptic Gregorian one.
  - Months count from zero, as in `java.util.Calendar`.
- A Java `null` is an `Option`. An exception is the `Err` case of a `Result`, or `None` where
  the caller swallows it.
- An index state is a value (`FilesystemIndex.Index`). Each method returns the new state
  together with its answer.
- The disk is modelled as follows:
  - A day file is its stored collection and its count.
  - The walk is the sequence of files it reaches and a flag saying whether every
    directory could be listed. When one cannot, the sequence holds the files found
    before it.
  - A data file found in the walk is a `Candidate`: a name, a path, and its lines (`None`
    when it cannot be opened).
  - `File.exists` is a set of existing paths.
  - The directories that `File.listFiles` can list are a set in the servlet context
    (`DataFileIndexes.Context.directories`).
- Two things are parameters:
  - `SimpleDateFormat.parse` is a `TimeParser` function.
  - The order in which a hash set or map is iterated is a given sequence wherever the
    result depends on it: an `order` of days, or the `listed` order of the monitor set.
- A hash set of data files or monitors is a sequence without duplicates. Duplicates are
  judged by `equals`, which for data files compares paths.
- The cache can disagree with the disk, because `verify` leaves stale entries (see Findings).
  So validity (`DataIndexFiles.Valid`) is the invariant every operation keeps. Agreement
  (`DataIndexFiles.Coherent`) is kept by every operation that does not break it. The exact
  answers of the queries are stated under `Coherent`. What the queries return is always
  sound.
- The GOES times are set with `Calendar.HOUR` on a copy of the day's midnight. On a
  lenient calendar at midnight this is the same as adding hours past midnight, and the
  model adds them directly.
- One module per source class:

  | Module | Source |
  |---|---|
  | `CalendarUtil` | `CalendarUtil` |
  | `Monitors` | `MonitorInfo` |
  | `MonitorComparators` | `MonitorComparators` |
  | `DataFiles` | `DataFile` |
  | `DataFileLists` | `DataFileList` |
  | `IndexFileCache` | the inner cache class |
  | `DataIndexFiles` | the inner `DataIndexFile` class |
  | `FilesystemIndex` | the index and its update task |
  | `ShowInfoIndex` | `ShowInfoDataFileIndex` |
  | `DataFileIndexes` | `DataFileIndex.getInstance` |
  | `GoesFlareStrengths` | `GoesFlareStrength` |
  | `GoesDataSource` | `GoesDataSource` |

  Two modules are not tied to one class. `JavaStrings` stands in for the
  `java.lang.String` and `Integer` operations the source relies on: `split`, `trim`,
  `indexOf`, `join`, `parseInt`, `toLowerCase` and `compareTo`. It models the library
  behaviour those calls have and is not part of the repository, so its members have no
  rows below except where they state the ordering the comparators use. `Results`
  holds `Option` and `Result`.

## Model

| member | source | states |
|---|---|---|
| CalendarUtil.MonthLength | SID/database-browser/src/edu/stanford/sid/util/CalendarUtil.java:94-103 | every month of the proleptic Gregorian calendar has 28 to 31 days |
| CalendarUtil.DaysBeforeNextMonth | SID/database-browser/src/edu/stanford/sid/util/CalendarUtil.java:94-103 | the days before a month plus its length are the days before the next month, so months tile the year |
| CalendarUtil.YearStartMonotone | SID/database-browser/src/edu/stanford/sid/util/CalendarUtil.java:94-103 | years start at least 365 days apart, so later years start later |
| CalendarUtil.YearOf | SID/database-browser/src/edu/stanford/sid/util/CalendarUtil.java:94-103 | every day number lies in the year whose span contains it |
| CalendarUtil.CivilFromDays | SID/database-browser/src/edu/stanford/sid/util/CalendarUtil.java:94-103 | the date read off a day number is a valid date, in the right year, and counts back to that day |
| CalendarUtil.CivilRoundTrip | SID/database-browser/src/edu/stanford/sid/util/CalendarUtil.java:94-103 | decoding a day number to a date and encoding the date gives the day number back |
| CalendarUtil.CivilFromDaysOfValid | SID/database-browser/src/edu/stanford/sid/util/CalendarUtil.java:94-103 | encoding a valid date and decoding it gives the date back (the other round trip) |
| CalendarUtil.CivilUnique | SID/database-browser/src/edu/stanford/sid/util/CalendarUtil.java:94-103 | a day number has only one valid date |
| CalendarUtil.GetCalendar | SID/database-browser/src/edu/stanford/sid/util/CalendarUtil.java:94-103 | getCalendar(year, month, day) is a GMT midnight whose day number is that date's, months and days normalised leniently |
| CalendarUtil.GetCalendarOfValid | SID/database-browser/src/edu/stanford/sid/util/CalendarUtil.java:94-103 | for a valid date getCalendar gives the midnight that reads back as the same date |
| CalendarUtil.DateResolution | SID/database-browser/src/edu/stanford/sid/util/CalendarUtil.java:46-49 | the result is the GMT midnight of the day containing the instant |
| CalendarUtil.DateResolutionIdempotent | SID/database-browser/src/edu/stanford/sid/util/CalendarUtil.java:46-49 | truncating to the day twice is the same as once |
| CalendarUtil.DateResolutionOfDay | SID/database-browser/src/edu/stanford/sid/util/CalendarUtil.java:46-49 | any instant of a day truncates to that day's midnight |
| CalendarUtil.MonthResolution | SID/database-browser/src/edu/stanford/sid/util/CalendarUtil.java:51-54 | the result is midnight of the first day of the instant's month |
| CalendarUtil.YearResolution | SID/database-browser/src/edu/stanford/sid/util/CalendarUtil.java:56-59 | the result is midnight of January 1 of the instant's year |
| CalendarUtil.DaysFromMember | SID/database-browser/src/edu/stanford/sid/util/CalendarUtil.java:77-81 | the loop yields exactly the midnights from the first day up to, not including, the end |
| CalendarUtil.DaysInRange | SID/database-browser/src/edu/stanford/sid/util/CalendarUtil.java:72-84 | the days of a range are consecutive midnights from the start's day, all before the end, and a midnight is listed exactly when it is in that span; an empty range gives no days |
| CalendarUtil.DaysInRangeCovers | SID/database-browser/src/edu/stanford/sid/util/CalendarUtil.java:72-84 | every instant of the range has its day listed |
| CalendarUtil.DaysInRangeOverlap | SID/database-browser/src/edu/stanford/sid/util/CalendarUtil.java:72-84 | every listed day overlaps the range |
| CalendarUtil.DaysInRangeOneDay | SID/database-browser/src/edu/stanford/sid/util/CalendarUtil.java:72-84 | the range from a midnight to the next one lists only that day |
| CalendarUtil.OverlapDay | SID/database-browser/src/edu/stanford/sid/util/CalendarUtil.java:72-84 | two overlapping ranges share a listed day |
| CalendarUtil.MonthStep | SID/database-browser/src/edu/stanford/sid/util/CalendarUtil.java:94-103 | adding a month with the day clamped to the month's length moves 28 to 31 days |
| CalendarUtil.AddMonthBounds | SID/database-browser/src/edu/stanford/sid/database/FilesystemDataFileIndex.java:585-586 | Calendar.add(MONTH, 1) moves an instant forward by 28 to 31 days |
| Monitors.EqualsPartialEquivalence | SID/database-browser/src/edu/stanford/sid/database/MonitorInfo.java:170-180 | equals is symmetric and transitive, reflexive only for monitors with all three IDs, and ignores the location |
| Monitors.EqualsSameHash | SID/database-browser/src/edu/stanford/sid/database/MonitorInfo.java:162-180 | equal monitors have the same hash text |
| Monitors.AddMonitor | SID/database-browser/src/edu/stanford/sid/database/FilesystemDataFileIndex.java:430 | adding to the monitor hash set keeps the members, ends with a member equal to a complete monitor, keeps a set of complete monitors free of equal pairs, and adds a monitor with a null ID again every time |
| Monitors.ToStringRoundTrip | SID/database-browser/src/edu/stanford/sid/database/MonitorInfo.java:185-188 | the text of a monitor with space-free IDs splits on spaces back into site, monitor and station |
| Monitors.SplitOnEndAnchor | SID/database-browser/src/edu/stanford/sid/database/MonitorInfo.java:278 | split("$") splits only at a final line terminator: one piece, or two pieces that join to the input with the terminator as the second |
| Monitors.EqualsIdentifierOnlyTerminatorSites | SID/database-browser/src/edu/stanford/sid/database/MonitorInfo.java:276-284 | equalsIdentifier holds only for a site that is a line terminator and an empty station, and never for an identifier without a line terminator |
| Monitors.OwnIdentifierNeverMatches | SID/database-browser/src/edu/stanford/sid/database/MonitorInfo.java:268-284 | a complete monitor does not match its own identifier unless its site is a line terminator |
| Monitors.EqualsIdentifierTerminatorWitness | SID/database-browser/src/edu/stanford/sid/database/MonitorInfo.java:276-284 | the identifier "S-1" followed by a newline matches the monitor with that monitor ID, a newline site and an empty station |
| Monitors.EqualsIdentifierIntendedCorrect | SID/database-browser/src/edu/stanford/sid/database/MonitorInfo.java:268-284 | splitting on a literal '$', a monitor matches the identifier of another exactly when the two are equal |
| MonitorComparators.GetMonitorComparator | SID/database-browser/src/edu/stanford/sid/database/MonitorComparators.java:121-129 | the comparator whose ID equals the text, and SITE when none does |
| MonitorComparators.FindByIdFound | SID/database-browser/src/edu/stanford/sid/database/MonitorComparators.java:123-128 | the search returns a comparator with the given ID when one is listed, SITE otherwise |
| MonitorComparators.ValuesComplete | SID/database-browser/src/edu/stanford/sid/database/MonitorComparators.java:21-86 | the four comparators are all listed |
| MonitorComparators.GetMonitorComparatorRoundTrip | SID/database-browser/src/edu/stanford/sid/database/MonitorComparators.java:112-129 | looking a comparator up by its own ID finds it |
| JavaStrings.CodeUnits | SID/database-browser/src/edu/stanford/sid/database/MonitorComparators.java:46 | a character is one UTF-16 code unit below U+10000 and a high and low surrogate above, never a surrogate alone |
| JavaStrings.Utf16Injective | SID/database-browser/src/edu/stanford/sid/database/MonitorComparators.java:46 | strings with the same UTF-16 code units are equal |
| JavaStrings.CompareToAntisymmetric | SID/database-browser/src/edu/stanford/sid/database/MonitorComparators.java:46 | compareTo on code units is antisymmetric |
| JavaStrings.CompareToZeroIff | SID/database-browser/src/edu/stanford/sid/database/MonitorComparators.java:46 | compareTo is zero exactly for equal strings |
| JavaStrings.CompareToSupplementary | SID/database-browser/src/edu/stanford/sid/database/MonitorComparators.java:46 | a character above U+FFFF sorts before U+E000, as its high surrogate does |
| MonitorComparators.LowerCompareAntisymmetric | SID/database-browser/src/edu/stanford/sid/database/MonitorComparators.java:46 | comparing lower-cased IDs is antisymmetric and zero exactly for IDs equal ignoring case |
| MonitorComparators.CompareMonitorAntisymmetric | SID/database-browser/src/edu/stanford/sid/database/MonitorComparators.java:42-47 | MONITOR, with "unknown" first, is antisymmetric |
| MonitorComparators.CompareSiteAntisymmetric | SID/database-browser/src/edu/stanford/sid/database/MonitorComparators.java:54-66 | SITE, with "unknown" first and ties broken by monitor, is antisymmetric |
| MonitorComparators.CompareAntisymmetric | SID/database-browser/src/edu/stanford/sid/database/MonitorComparators.java:21-86 | every comparator is antisymmetric, with null IDs failing both ways |
| MonitorComparators.CompareDefined | SID/database-browser/src/edu/stanford/sid/database/MonitorComparators.java:21-86 | comparators never fail on complete monitors and find every complete monitor equal to itself; a null ID they read fails |
| MonitorComparators.CompareSiteOrder | SID/database-browser/src/edu/stanford/sid/database/MonitorComparators.java:54-66 | an "unknown" site sorts first, and sites equal ignoring case fall back to the monitor order |
| MonitorComparators.Insert | SID/database-browser/src/edu/stanford/sid/database/FilesystemDataFileIndex.java:631-634 | inserting into a sorted list keeps it sorted and adds exactly that monitor |
| MonitorComparators.Sort | SID/database-browser/src/edu/stanford/sid/database/FilesystemDataFileIndex.java:631-634 | sorting gives a sorted permutation of the monitors |
| DataFiles.MonitorOf | SID/database-browser/src/edu/stanford/sid/DataFile.java:452-455 | a data file's monitor has its three IDs, all present, and no location |
| DataFiles.MonitorOfEquals | SID/database-browser/src/edu/stanford/sid/DataFile.java:452-455 | the monitors of two files are equal exactly when their three IDs are |
| DataFiles.Build | SID/database-browser/src/edu/stanford/sid/DataFile.java:290-313 | verifyData rejects a missing monitor, site or station ID, then a missing start time, then a missing end time, in that order, and otherwise keeps the path, metadata and times |
| DataFiles.PutOpt | SID/database-browser/src/edu/stanford/sid/DataFile.java:100-114 | putting null leaves no entry for the key and changes no other key |
| DataFiles.IdMetadata | SID/database-browser/src/edu/stanford/sid/DataFile.java:100-114 | the three IDs are stored under their keys exactly when given, and no time key is set |
| DataFiles.PutAll | SID/database-browser/src/edu/stanford/sid/DataFile.java:119-159 | the extra entries never touch an ID or time key |
| DataFiles.FromFields | SID/database-browser/src/edu/stanford/sid/DataFile.java:100-114 | the file is made exactly when the three IDs and both times are given, and carries them |
| DataFiles.FromFieldsWithPosition | SID/database-browser/src/edu/stanford/sid/DataFile.java:119-135 | as above, and the position entries are stored too |
| DataFiles.FromFieldsWithRange | SID/database-browser/src/edu/stanford/sid/DataFile.java:140-159 | as above, and the data-range entries are stored too |
| DataFiles.FromMap | SID/database-browser/src/edu/stanford/sid/DataFile.java:164-176 | a file is made from a metadata map exactly when it has the IDs and both times parse, and keeps the map and path |
| DataFiles.LeadingHeaders | SID/database-browser/src/edu/stanford/sid/DataFile.java:196-214 | counts the header lines at the top: all before it are headers and the line after is not |
| DataFiles.ParseMetadataHeaderOnly | SID/database-browser/src/edu/stanford/sid/DataFile.java:196-214 | a file of header lines only gives exactly the header entries, with no fallbacks |
| DataFiles.ParseMetadataWithData | SID/database-browser/src/edu/stanford/sid/DataFile.java:196-232 | a file with a data line gives the header entries followed by the monitor and end-time fallbacks |
| DataFiles.ParseMetadataMonitorFallback | SID/database-browser/src/edu/stanford/sid/DataFile.java:216-221 | without a monitor ID in the header, the fourth piece of the file name is the monitor; a name with fewer pieces stops the parse with the header alone |
| DataFiles.ParseMetadataEndFallback | SID/database-browser/src/edu/stanford/sid/DataFile.java:223-232 | an end time that does not parse is replaced by the first comma-separated field of the last line |
| DataFiles.EndTimeFallbackKeeps | SID/database-browser/src/edu/stanford/sid/DataFile.java:223-232 | the end-time fallback changes no other key |
| DataFiles.HeaderEntryStores | SID/database-browser/src/edu/stanford/sid/DataFile.java:202-208 | a "#key=value" line stores that key and value |
| DataFiles.HeaderRoundTrip | SID/database-browser/src/edu/stanford/sid/DataFile.java:196-214 | writing entries as header lines and reading them back gives the entries' map, later keys winning |
| DataFiles.FromFile | SID/database-browser/src/edu/stanford/sid/DataFile.java:77-83 | a file read from disk has its path and the parsed metadata; a file that cannot be read has no monitor ID |
| DataFiles.SameFileByPath | SID/database-browser/src/edu/stanford/sid/DataFile.java:434-447 | equals is an equivalence that holds exactly for equal paths and agrees with hashCode |
| DataFiles.AddByPath | SID/database-browser/src/edu/stanford/sid/DataFile.java:434-447 | HashSet.add of a data file adds its path once, leaving the set unchanged when the path is present |
| DataFiles.UnionByPath | SID/database-browser/src/edu/stanford/sid/DataFile.java:434-447 | addAll into a hash set holds the paths of both, each once |
| DataFileLists.FilterByIds | SID/database-browser/src/edu/stanford/sid/DataFileList.java:50-66 | null IDs keep the list; otherwise exactly the files whose lower-cased monitor ID starts with one of the IDs, each once |
| DataFileLists.CollectByIds | SID/database-browser/src/edu/stanford/sid/DataFileList.java:60-63 | the collected paths are those of the accumulator plus the matching files |
| DataFileLists.FilterByMonitors | SID/database-browser/src/edu/stanford/sid/DataFileList.java:72-95 | no or empty monitors keep the list; otherwise exactly the files whose three IDs equal some monitor's, each once |
| DataFileLists.CollectByMonitors | SID/database-browser/src/edu/stanford/sid/DataFileList.java:80-92 | the collected paths are those of the accumulator plus the files made by a listed monitor |
| DataFileLists.GetMonitors | SID/database-browser/src/edu/stanford/sid/DataFileList.java:103-111 | the monitor IDs of the files, each once |
| DataFileLists.GetMonitorInfo | SID/database-browser/src/edu/stanford/sid/DataFileList.java:117-127 | one monitor per distinct monitor of the files, each taken from a file |
| IndexFileCache.Get | SID/database-browser/src/edu/stanford/sid/database/FilesystemDataFileIndex.java:472-475 | the value returned is one stored under the key |
| IndexFileCache.RemoveFirst | SID/database-browser/src/edu/stanford/sid/database/FilesystemDataFileIndex.java:500-501 | removes the key's first entry and only it |
| IndexFileCache.Remove | SID/database-browser/src/edu/stanford/sid/database/FilesystemDataFileIndex.java:496-503 | cacheRemove leaves no entry for the key and keeps every other entry in order; an absent key changes nothing |
| IndexFileCache.Evict | SID/database-browser/src/edu/stanford/sid/database/FilesystemDataFileIndex.java:486-490 | a full cache drops its oldest entry; a cache with room is unchanged |
| IndexFileCache.Add | SID/database-browser/src/edu/stanford/sid/database/FilesystemDataFileIndex.java:482-494 | cacheAdd puts the entry last, reads back the value, never exceeds 31 entries, keeps keys distinct, and evicts the oldest entry only when adding a new key to a full cache |
| IndexFileCache.AddKeyAtTail | SID/database-browser/src/edu/stanford/sid/database/FilesystemDataFileIndex.java:482-494 | the added key is last and appears nowhere else, and every entry is an old one or the new one |
| IndexFileCache.AddEvicts | SID/database-browser/src/edu/stanford/sid/database/FilesystemDataFileIndex.java:482-494 | re-adding a cached key moves its entry to the end without evicting; a new key evicts the oldest entry only from a full cache; the size never passes 31 |
| IndexFileCache.AddDistinct | SID/database-browser/src/edu/stanford/sid/database/FilesystemDataFileIndex.java:482-494 | adding keeps keys distinct |
| IndexFileCache.DistinctAfterRemove | SID/database-browser/src/edu/stanford/sid/database/FilesystemDataFileIndex.java:496-503 | removing keeps keys distinct |
| DataIndexFiles.EmptyStore | SID/database-browser/src/edu/stanford/sid/database/FilesystemDataFileIndex.java:541-563 | a fresh index has no buckets and an empty cache, which is a valid state |
| DataIndexFiles.NewBucket | SID/database-browser/src/edu/stanford/sid/database/FilesystemDataFileIndex.java:117-122 | a new bucket holds no files and is consistent |
| DataIndexFiles.WriteFiles | SID/database-browser/src/edu/stanford/sid/database/FilesystemDataFileIndex.java:130-142 | writing a set of files stores its count and reads back as the same files |
| DataIndexFiles.GetFiles | SID/database-browser/src/edu/stanford/sid/database/FilesystemDataFileIndex.java:179-195 | getFiles answers from the cache on a hit and from disk otherwise, leaves the day's entry newest in the cache, and returns what is on disk when the cache agreed with it |
| DataIndexFiles.ViewCoherent | SID/database-browser/src/edu/stanford/sid/database/FilesystemDataFileIndex.java:179-195 | with a coherent cache, the cached view is the bucket's contents |
| DataIndexFiles.AddFile | SID/database-browser/src/edu/stanford/sid/database/FilesystemDataFileIndex.java:205-213 | addFile adds the file's path to the day's bucket, counts it only if new, drops the day's cache entry and touches no other day |
| DataIndexFiles.AddFileTwice | SID/database-browser/src/edu/stanford/sid/database/FilesystemDataFileIndex.java:205-213 | adding the same file twice leaves the buckets as adding it once |
| DataIndexFiles.CacheKeepsValid | SID/database-browser/src/edu/stanford/sid/database/FilesystemDataFileIndex.java:482-494 | caching a list keeps the store valid, and keeps it coherent when the list is what is on disk |
| DataIndexFiles.RewriteKeepsValid | SID/database-browser/src/edu/stanford/sid/database/FilesystemDataFileIndex.java:205-213 | rewriting a bucket and dropping its cache entry keeps validity and coherence |
| DataIndexFiles.Verify | SID/database-browser/src/edu/stanford/sid/database/FilesystemDataFileIndex.java:227-253 | verify as written leaves every bucket it runs on empty on disk, touches no other day, and leaves the old list in the cache |
| DataIndexFiles.VerifyLeavesStaleEntry | SID/database-browser/src/edu/stanford/sid/database/FilesystemDataFileIndex.java:227-253 | on a non-empty bucket, verify leaves the cache disagreeing with the disk |
| DataIndexFiles.VerifyIntended | SID/database-browser/src/edu/stanford/sid/database/FilesystemDataFileIndex.java:227-253 | the intended verify keeps exactly the listed files that still exist, touches no other day, and keeps the cache coherent |
| DataIndexFiles.KeepExisting | SID/database-browser/src/edu/stanford/sid/database/FilesystemDataFileIndex.java:234-241 | keeps exactly the files whose path exists, in order, each once |
| DataIndexFiles.HasFiles | SID/database-browser/src/edu/stanford/sid/database/FilesystemDataFileIndex.java:266-302 | with a coherent cache, true exactly when the bucket holds a file of one of the monitors (any file when none are given); an empty bucket answers false at once |
| FilesystemIndex.New | SID/database-browser/src/edu/stanford/sid/database/FilesystemDataFileIndex.java:541-563 | a new index has no buckets and is not yet updated |
| FilesystemIndex.IndexedNameExamples | SID/database-browser/src/edu/stanford/sid/database/FilesystemDataFileIndex.java:425 | names ending in dat, csv or txt are indexed; other endings, upper case, and names with a line break are not |
| FilesystemIndex.Decoded | SID/database-browser/src/edu/stanford/sid/database/FilesystemDataFileIndex.java:424-429 | a file is indexed exactly when its name matches and it parses, and keeps its path |
| FilesystemIndex.AddToDay | SID/database-browser/src/edu/stanford/sid/database/FilesystemDataFileIndex.java:435-441 | creates the day's bucket when missing and adds the file's path to it and nowhere else |
| FilesystemIndex.AddToDaysHeld | SID/database-browser/src/edu/stanford/sid/database/FilesystemDataFileIndex.java:433-442 | after the days loop a day holds a path exactly when it did before or the file covers that day |
| FilesystemIndex.ProcessFile | SID/database-browser/src/edu/stanford/sid/database/FilesystemDataFileIndex.java:421-443 | processFile adds the file's monitor and a bucket for each day the file covers, keeps coherence, and leaves the update flag alone |
| FilesystemIndex.ProcessFileHeld | SID/database-browser/src/edu/stanford/sid/database/FilesystemDataFileIndex.java:421-443 | after processFile a day holds a path exactly when it did before or the file is indexed on that day |
| FilesystemIndex.ProcessAllBuckets | SID/database-browser/src/edu/stanford/sid/database/FilesystemDataFileIndex.java:393-413 | after the walk a day has a bucket exactly when it had one or some indexed file covers it |
| FilesystemIndex.ProcessAllMonitors | SID/database-browser/src/edu/stanford/sid/database/FilesystemDataFileIndex.java:393-413 | after the walk every earlier monitor and the monitor of every indexed file are present, and nothing else |
| FilesystemIndex.ProcessAllHeld | SID/database-browser/src/edu/stanford/sid/database/FilesystemDataFileIndex.java:393-413 | after the walk a day holds a path exactly when it did or an indexed file covering that day has it |
| FilesystemIndex.VerifyAll | SID/database-browser/src/edu/stanford/sid/database/FilesystemDataFileIndex.java:376-382 | verifyFiles as written empties every bucket it visits and no other |
| FilesystemIndex.Verified | SID/database-browser/src/edu/stanford/sid/database/FilesystemDataFileIndex.java:376-382 | after verifyFiles over all buckets no day holds any file |
| FilesystemIndex.Run | SID/database-browser/src/edu/stanford/sid/database/FilesystemDataFileIndex.java:331-369 | an update run raises the completion flag exactly when the walk lists every directory (otherwise `listFiles` returns null at line 396 and the loop throws before line 361), has a bucket for exactly the old days and those the indexed files cover, and keeps every monitor seen |
| FilesystemIndex.RunRebuilds | SID/database-browser/src/edu/stanford/sid/database/FilesystemDataFileIndex.java:331-369 | after a run, finished or not, each day holds exactly the paths of the indexed files covering it, each held file being one of them |
| FilesystemIndex.UpdateCompleteStays | SID/database-browser/src/edu/stanford/sid/database/FilesystemDataFileIndex.java:361 | a new index is not complete; a run whose walk lists every directory makes it complete and it stays so; a run that fails part-way and the processing of a file leave the flag unchanged |
| FilesystemIndex.GetFilesFromTimeRange | SID/database-browser/src/edu/stanford/sid/database/FilesystemDataFileIndex.java:579-615 | a range longer than a month throws; otherwise every file returned exists, overlaps the range, and appears once |
| FilesystemIndex.TimeRangeExact | SID/database-browser/src/edu/stanford/sid/database/FilesystemDataFileIndex.java:579-615 | with a coherent cache, the paths returned are exactly those of existing overlapping files in the buckets of the range's days |
| FilesystemIndex.QueryFindsRebuiltFiles | SID/database-browser/src/edu/stanford/sid/database/FilesystemDataFileIndex.java:579-615 | after a run that leaves the cache agreeing with the disk, a query finds every indexed file that exists and overlaps the range |
| FilesystemIndex.QueryFindsUpdatedFiles | SID/database-browser/src/edu/stanford/sid/database/FilesystemDataFileIndex.java:579-615 | after a run from an agreeing cache whose walk indexes again every day that held files, a query finds every indexed file that exists and overlaps the range |
| FilesystemIndex.QueryFindsFirstRunFiles | SID/database-browser/src/edu/stanford/sid/database/FilesystemDataFileIndex.java:579-615 | after the first run of a new index, a query finds every indexed file that exists and overlaps the range |
| FilesystemIndex.VerifyOffWalk | SID/database-browser/src/edu/stanford/sid/database/FilesystemDataFileIndex.java:236-239 | verify caches the bucket's old contents and empties it, so its stale entry lies on a day the walk indexes whenever that bucket held files |
| FilesystemIndex.VerifyAllOffWalk | SID/database-browser/src/edu/stanford/sid/database/FilesystemDataFileIndex.java:376-382 | after verifyFiles, every stale cache entry lies on a day the walk indexes, when each bucket that held files is such a day |
| FilesystemIndex.ProcessAllEntries | SID/database-browser/src/edu/stanford/sid/database/FilesystemDataFileIndex.java:393-413 | the walk drops the cache entry of every day it indexes a file under and leaves every other bucket and entry unchanged |
| FilesystemIndex.RunCoherent | SID/database-browser/src/edu/stanford/sid/database/FilesystemDataFileIndex.java:331-369 | a run leaves the cache agreeing with the disk when it agreed before and the walk indexes again every day whose bucket held files |
| FilesystemIndex.FirstRunCoherent | SID/database-browser/src/edu/stanford/sid/database/FilesystemDataFileIndex.java:331-369 | the first run of a new index leaves the cache agreeing with the disk |
| FilesystemIndex.HasFilesOnDays | SID/database-browser/src/edu/stanford/sid/database/FilesystemDataFileIndex.java:668-678 | true exactly when one of the days has a bucket with a file of the monitors |
| FilesystemIndex.HasFilesInRange | SID/database-browser/src/edu/stanford/sid/database/FilesystemDataFileIndex.java:666-679 | true exactly when a day of the range has a bucket with a file of the monitors |
| FilesystemIndex.DataStartIsFebruaryFirst | SID/database-browser/src/edu/stanford/sid/database/FilesystemDataFileIndex.java:644 | getCalendar(2003, 1, 1) is February 1 2003, since months count from zero |
| FilesystemIndex.DaysWithDataOrdered | SID/database-browser/src/edu/stanford/sid/database/FilesystemDataFileIndex.java:649-654 | the days kept are among the days scanned and stay in increasing order |
| FilesystemIndex.DaysWithDataExact | SID/database-browser/src/edu/stanford/sid/database/FilesystemDataFileIndex.java:649-654 | a scanned day is kept exactly when its bucket has a file of the monitors |
| FilesystemIndex.DaysWithDataSince | SID/database-browser/src/edu/stanford/sid/database/FilesystemDataFileIndex.java:642-657 | the days returned are increasing midnights from the start day up to now |
| FilesystemIndex.DaysWithDataSinceExact | SID/database-browser/src/edu/stanford/sid/database/FilesystemDataFileIndex.java:642-657 | a midnight is returned exactly when it lies between the start and now and its bucket has a file of the monitors |
| FilesystemIndex.GetDaysWithDataExact | SID/database-browser/src/edu/stanford/sid/database/FilesystemDataFileIndex.java:642-657 | getDaysWithData returns, in increasing order, exactly the days since February 1 2003 whose bucket has a file of the monitors |
| FilesystemIndex.GetMonitors | SID/database-browser/src/edu/stanford/sid/database/FilesystemDataFileIndex.java:626-637 | a permutation of the monitors seen: sorted by the comparator when one is given, otherwise in the hash set's iteration order |
| ShowInfoIndex.New | SID/database-browser/src/edu/stanford/sid/database/ShowInfoDataFileIndex.java:107-122 | the constructor takes the data series from the parameters when given, and throws without an executable |
| ShowInfoIndex.IsUpdateComplete | SID/database-browser/src/edu/stanford/sid/database/ShowInfoDataFileIndex.java:264-268 | a show_info index always reports itself updated |
| ShowInfoIndex.GetIndexOf | SID/database-browser/src/edu/stanford/sid/database/ShowInfoDataFileIndex.java:60-74 | the first column whose name equals the key, -1 when none does |
| ShowInfoIndex.HeaderRoundTrip | SID/database-browser/src/edu/stanford/sid/database/ShowInfoDataFileIndex.java:60-74 | a header joined from tab-free column names splits back to them, so a key is found at its own column |
| ShowInfoIndex.WeekGuard | SID/database-browser/src/edu/stanford/sid/database/ShowInfoDataFileIndex.java:186-192 | a range longer than seven days throws |
| ShowInfoIndex.MonitorCollectionContains | SID/database-browser/src/edu/stanford/sid/database/ShowInfoDataFileIndex.java:442-450 | true exactly when some monitor matches the identifier |
| ShowInfoIndex.HasFilesInRange | SID/database-browser/src/edu/stanford/sid/database/ShowInfoDataFileIndex.java:456-505 | throws for more than a week; otherwise true exactly when some response line names a listed monitor |
| ShowInfoIndex.HasFilesInRangeNeverTrue | SID/database-browser/src/edu/stanford/sid/database/ShowInfoDataFileIndex.java:476-504 | since scanner lines hold no line terminator, hasFilesInRange as written never answers true |
| ShowInfoIndex.MonitorCollectionContainsIntended | SID/database-browser/src/edu/stanford/sid/database/ShowInfoDataFileIndex.java:442-450 | with the intended identifier test, true exactly when some monitor matches |
| ShowInfoIndex.LineMatchesIntended | SID/database-browser/src/edu/stanford/sid/database/ShowInfoDataFileIndex.java:485-491 | with the intended test, a line's identifier is found exactly when a listed monitor equals the line's monitor |
| ShowInfoIndex.Separator | SID/database-browser/src/edu/stanford/sid/database/ShowInfoDataFileIndex.java:512-536 | the k-th candidate separator has 6k + 2 characters |
| ShowInfoIndex.SeparatorText | SID/database-browser/src/edu/stanford/sid/database/ShowInfoDataFileIndex.java:512-536 | the k-th candidate separator is "$", then k copies of "string", then "$", character by character |
| ShowInfoIndex.MonitorClash | SID/database-browser/src/edu/stanford/sid/database/ShowInfoDataFileIndex.java:520-523 | a monitor clashes with a separator when one of its IDs contains it; an ID read while null throws |
| ShowInfoIndex.ScanMonitors | SID/database-browser/src/edu/stanford/sid/database/ShowInfoDataFileIndex.java:516-524 | true exactly when some monitor clashes, defined exactly when all IDs are present |
| ShowInfoIndex.FindSeparator | SID/database-browser/src/edu/stanford/sid/database/ShowInfoDataFileIndex.java:512-536 | the first separator from k on that no monitor contains |
| ShowInfoIndex.SafeSeparator | SID/database-browser/src/edu/stanford/sid/database/ShowInfoDataFileIndex.java:512-536 | the separator chosen is the shortest "$string...$" no ID contains, and the search ends |
| ShowInfoIndex.GenerateMonitorFilter | SID/database-browser/src/edu/stanford/sid/database/ShowInfoDataFileIndex.java:507-581 | no monitors give the empty filter; otherwise it opens with " WHERE (" alone or " AND (" after other conditions |
| ShowInfoIndex.ClausesHold | SID/database-browser/src/edu/stanford/sid/database/ShowInfoDataFileIndex.java:555-577 | every monitor's condition occurs in the OR-joined conditions |
| ShowInfoIndex.FilterHoldsClause | SID/database-browser/src/edu/stanford/sid/database/ShowInfoDataFileIndex.java:555-577 | the filter, after its " WHERE (" or " AND (" head, contains every monitor's condition |
| ShowInfoIndex.FilterHoldsEveryMonitor | SID/database-browser/src/edu/stanford/sid/database/ShowInfoDataFileIndex.java:555-577 | the filter names every monitor: its monitor ID and site, and its station unless that is "multiple", each quoted by a separator that no monitor field contains |
| ShowInfoIndex.MonitorFilterCounts | SID/database-browser/src/edu/stanford/sid/database/ShowInfoDataFileIndex.java:555-577 | for plain IDs the filter's parentheses balance, one pair and two equals signs per monitor plus one per station test |
| ShowInfoIndex.FilterShape | SID/database-browser/src/edu/stanford/sid/database/ShowInfoDataFileIndex.java:545-577 | the filter is its head followed by the clauses, under a separator with no parentheses or equals signs |
| DataFileIndexes.NewFilesystem | SID/database-browser/src/edu/stanford/sid/database/DataFileIndex.java:58-62 | the filesystem index is built exactly when the three directories and a readable update period are given, the index directory can be listed (the constructor's loop, FilesystemDataFileIndex.java lines 553-557) and the period is positive; a missing directory parameter or an unlistable index directory is a null-pointer failure |
| DataFileIndexes.NewShowInfo | SID/database-browser/src/edu/stanford/sid/database/DataFileIndex.java:66 | a show_info index is built exactly when an executable is given |
| DataFileIndexes.GetInstance | SID/database-browser/src/edu/stanford/sid/database/DataFileIndex.java:41-76 | a stored index is returned as is; a filesystem index is built and stored only when asked for; otherwise a fresh show_info index that is not stored |
| DataFileIndexes.GetInstanceStable | SID/database-browser/src/edu/stanford/sid/database/DataFileIndex.java:41-76 | once an index is stored, later calls return it and change nothing |
| DataFileIndexes.ShowInfoNeverStored | SID/database-browser/src/edu/stanford/sid/database/DataFileIndex.java:41-76 | the context only ever gains a new, not yet updated, filesystem index |
| DataFileIndexes.IsUpdateComplete | SID/database-browser/src/edu/stanford/sid/database/FilesystemDataFileIndex.java:688-691 | a show_info index is always complete, a filesystem index after its first run |
| GoesFlareStrengths.CategoryOf | SID/database-browser/src/edu/stanford/sid/eds/GoesFlareStrength.java:28-34 | the category whose letter is the text, none for any other text |
| GoesFlareStrengths.CategoryLetters | SID/database-browser/src/edu/stanford/sid/eds/GoesFlareStrength.java:12-35 | each category is found by its letter, and categories are ordered by declaration |
| GoesFlareStrengths.Parse | SID/database-browser/src/edu/stanford/sid/eds/GoesFlareStrength.java:43-48 | a strength parses exactly when a known letter leads three characters of a number; errors come in the source's order |
| GoesFlareStrengths.CompareTo | SID/database-browser/src/edu/stanford/sid/eds/GoesFlareStrength.java:53-60 | compares by category first and strength second; zero against null and exactly for equal strengths |
| GoesFlareStrengths.CompareToOrder | SID/database-browser/src/edu/stanford/sid/eds/GoesFlareStrength.java:53-60 | the comparison is reflexive, antisymmetric and transitive |
| GoesFlareStrengths.CategoryDominates | SID/database-browser/src/edu/stanford/sid/eds/GoesFlareStrength.java:53-60 | a higher category is stronger whatever the numbers |
| GoesFlareStrengths.ToStringRoundTrip | SID/database-browser/src/edu/stanford/sid/eds/GoesFlareStrength.java:65-68 | a printed strength below 10 is four characters that parse back to it |
| GoesFlareStrengths.ParseRoundTrip | SID/database-browser/src/edu/stanford/sid/eds/GoesFlareStrength.java:43-68 | printing a parsed strength gives back the four characters it came from |
| GoesDataSource.ClockDigits | SID/database-browser/src/edu/stanford/sid/eds/GoesDataSource.java:154-164 | a four-digit field HHMM is set to the day plus HH hours and MM minutes, for any day |
| GoesDataSource.ClockWithinDay | SID/database-browser/src/edu/stanford/sid/eds/GoesDataSource.java:154-164 | on a midnight, a reading before 24:00 lies within that day and truncates back to it |
| GoesDataSource.ClockLenient | SID/database-browser/src/edu/stanford/sid/eds/GoesDataSource.java:154-164 | lenient setting: "2400" is the next midnight and "2460" one o'clock the next day |
| GoesDataSource.ClockRejects | SID/database-browser/src/edu/stanford/sid/eds/GoesDataSource.java:154-164 | a field with a character other than a digit, apart from a sign leading the hours or minutes, is rejected and the line skipped |
| GoesDataSource.EndTimeIsPeak | SID/database-browser/src/edu/stanford/sid/eds/GoesDataSource.java:149-171 | as written, the event's end time is read from the max column and its max time from the end column |
| GoesDataSource.EndTimeIsPeakExample | SID/database-browser/src/edu/stanford/sid/eds/GoesDataSource.java:149-171 | a sample event with max 10:05 and end 10:20 gets end time 10:05, before its real end |
| GoesDataSource.ParseEventIntended | SID/database-browser/src/edu/stanford/sid/eds/GoesDataSource.java:149-171 | the intended event takes each time from its own column and accepts the same lines |
| GoesDataSource.DayEventsNone | SID/database-browser/src/edu/stanford/sid/eds/GoesDataSource.java:135-186 | a day's list is dropped exactly when some candidate line is shorter than the strength columns |
| GoesDataSource.DayEventsExact | SID/database-browser/src/edu/stanford/sid/eds/GoesDataSource.java:135-175 | a kept day's events are exactly those its lines parse to |
| GoesDataSource.DayEventsAppend | SID/database-browser/src/edu/stanford/sid/eds/GoesDataSource.java:135-177 | the events of two runs of lines are those of each, in order |
| GoesDataSource.CollectDaysMembers | SID/database-browser/src/edu/stanford/sid/eds/GoesDataSource.java:122-189 | an event is collected exactly when some day of the range yields it |
| GoesDataSource.KeepStrongMembers | SID/database-browser/src/edu/stanford/sid/eds/GoesDataSource.java:191-196 | an event is kept exactly when it is in the list and not weaker than the minimum |
| GoesDataSource.KeepStrongAppend | SID/database-browser/src/edu/stanford/sid/eds/GoesDataSource.java:191-196 | filtering distributes over concatenation |
| GoesDataSource.KeepStrongNoMinimum | SID/database-browser/src/edu/stanford/sid/eds/GoesDataSource.java:191-196 | with no minimum every event is kept |
| GoesDataSource.RemoveWeak | SID/database-browser/src/edu/stanford/sid/eds/GoesDataSource.java:191-196 | the iterator loop removes exactly the events weaker than the minimum |
| GoesDataSource.GetListForRange | SID/database-browser/src/edu/stanford/sid/eds/GoesDataSource.java:117-199 | the result holds exactly the events of the range's days that are not weaker than the minimum |
| GoesDataSource.FilterByDay | SID/database-browser/src/edu/stanford/sid/eds/GoesDataSource.java:117-199 | filtering the whole list is filtering each day's events in turn |

## Left out

- `FilesystemDataFileIndex.getInstance` (FilesystemDataFileIndex.java lines 70-93) is left out. It is a second, static singleton with a fixed ten-minute period and directories from a properties file. It adds nothing beyond the context-stored instance that `DataFileIndex.getInstance` builds.
- Synchronisation, the `Timer` that schedules the update task, and concurrent readers are left out. Calls are sequential in the model.
- `FilesystemIndex.Run`: a walk that fails to list a directory throws out of `TimerTask.run`, which also ends the `Timer`, so no later update runs. Without a scheduler, the model leaves that to the caller of `Run`.
- File I/O is left out:
  - object streams, temporary files and `createFile`;
  - `IOException` and `ClassNotFoundException` paths when reading a day file;
  - logging and `finalize`.
  A day file always reads back what was last written.
- The directory walk's recursion into sub-directories is flattened into one given sequence of candidate files.
- The show_info process is left out: `Runtime.exec`, its timeout, and reading its output stream. Its response is given as a sequence of lines.
- The Ehcache caches and the show_info `getFilesFromTimeRange`, `getMonitors` and `getDaysWithData` (ShowInfoDataFileIndex.java lines 389-437) are left out. Those queries parse process output that this model does not describe.
- Monitor latitude, longitude, website and `getStationLatitudeLongitude` are left out. They rest on float parsing and URL checks outside the index.
- The JSOC constructor and parser of `DataFile` (DataFile.java lines 92-95 and 242-280) are left out. The filesystem index never uses them.
- `close` is empty in both index kinds and is left out.
- The `GoesDataSource` singleton, its constructor, the URL of a day's list, and its cache of parsed days are left out. A day's lines are given as a map, and a missing day is one whose list could not be opened.
- `JavaStrings.ToLower` folds ASCII letters only. Unicode case mapping is not modelled.
- `JavaStrings.ParseInt` accepts ASCII digits only. `Integer.parseInt` also accepts the other Unicode decimal digits, which the model rejects.
- `DataFileLists.FilterByIds` takes IDs that are strings. A null element of the Java array throws in `toLowerCase` (DataFileList.java lines 60-63), which the model cannot express.
- `CalendarUtil` uses the proleptic Gregorian calendar. Java's default `GregorianCalendar` is Julian before 15 October 1582, so the model's days and instants differ from Java's before that cutover. The data all lies after 2003.
- `GoesFlareStrengths.ParseTenths` accepts only the "d.d" form the event lists use. `Double.parseDouble` also accepts forms such as "1e0" or "+.5", which the model rejects.
- `GoesFlareStrengths.Parse` is weaker than the source for the same reason. Three characters that Java reads as a number in another form are an error in the model.
- `MonitorComparators.Sort`: Java's sort algorithm is not modelled. The model proves that a sorted permutation is produced, without fixing the order of ties.
- `FilesystemIndex.HasFilesInRange` states its exact answer only while the cache agrees with the disk. Otherwise only soundness is proved, because the stale entries `verify` leaves can change the answer.
- `FilesystemIndex.TimeRangeExact` and `FilesystemIndex.GetDaysWithDataExact` carry the same agreement hypothesis, for the same reason.
- `FilesystemIndex.QueryFindsRebuiltFiles` assumes that the cache agrees with the disk after the run. `FilesystemIndex.RunCoherent` discharges that for a run from an agreeing cache whose walk indexes again every day that held files, and `FilesystemIndex.QueryFindsUpdatedFiles` and `FilesystemIndex.QueryFindsFirstRunFiles` drop the hypothesis on that ground. After a run in which a data file was deleted, a stale entry can survive and the query is only sound.
- `DataIndexFiles.HasFiles` has the same limit: its exact answer is stated only while the cache agrees with the disk.
- `GoesDataSource.DayEvents` states only a length bound in its own contract. Its meaning is given by `GoesDataSource.DayEventsNone` and `GoesDataSource.DayEventsExact`.

## Findings

The operations of the model follow the code as written, so that every row of the table above describes the program. For each discrepancy below, the corrected definition sits beside the as-written one and carries the intended property.

| source | as written | input that shows it | evidently intended | confidence | as-written member | corrected member |
|---|---|---|---|---|---|---|
| SID/database-browser/src/edu/stanford/sid/database/MonitorInfo.java:278 | `identifier.split("$")` uses "$" as a regular expression (an end anchor), so it never splits at a dollar sign | monitor "S-1", site "stanford", station "NLK" does not match its own identifier "S-1$stanford$NLK" | split at the literal '$' that `getIdentifier` puts between the IDs | high, not executed | Monitors.OwnIdentifierNeverMatches | Monitors.EqualsIdentifierIntendedCorrect |
| SID/database-browser/src/edu/stanford/sid/database/ShowInfoDataFileIndex.java:485-491 | every response line's identifier goes through that `equalsIdentifier`, and scanner lines contain no line terminator | any response whose line names a listed monitor still answers false | true exactly when a line's monitor, site and station equal those of a listed monitor | high, not executed | ShowInfoIndex.HasFilesInRangeNeverTrue | ShowInfoIndex.LineMatchesIntended |
| SID/database-browser/src/edu/stanford/sid/database/FilesystemDataFileIndex.java:236-239 | the loop tests `f.getFile()` before the first `f = i.next()`, so `f` is null. The exception handler then writes an empty set, leaving the list `getFiles` cached | a day file holding one existing data file is emptied, and its cached list no longer matches the disk | keep the files that still exist and cache what is written | high, not executed | DataIndexFiles.VerifyLeavesStaleEntry | DataIndexFiles.VerifyIntended |
| SID/database-browser/src/edu/stanford/sid/eds/GoesDataSource.java:171 | `new GoesEvent(start, max, end, …)` while the constructor's parameters are (start, end, max) | an event with max "1005" and end "1020" gets end time 10:05 and max time 10:20 | pass the end time second and the max time third | high, not executed | GoesDataSource.EndTimeIsPeakExample | GoesDataSource.ParseEventIntended |
