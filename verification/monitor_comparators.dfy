/**
 * The four orderings the monitor lists can be sorted by. Each comparison
 * dereferences the monitor fields it looks at, so a comparison that reaches
 * a null field fails (`None`, a NullPointerException in the source).
 * Strings are compared case-insensitively with `String.compareTo`.
 */
module MonitorComparators {
  import opened Results
  import opened JavaStrings
  import opened Monitors

  datatype Ordering = ByStation | ByMonitor | BySite | ByLocation

  /** The identifier each ordering is selected by. */
  function Id(o: Ordering): string {
    match o
    case ByStation => "station"
    case ByMonitor => "monitor"
    case BySite => "site"
    case ByLocation => "location"
  }

  /** The database column each ordering sorts on. */
  function SqlColumnName(o: Ordering): string {
    match o
    case ByStation => "stationID"
    case ByMonitor => "monitorID"
    case BySite => "site"
    case ByLocation => "country"
  }

  /** Declaration order of the enum, which is the order `values()` returns. */
  const Values: seq<Ordering> := [ByStation, ByMonitor, BySite, ByLocation]

  /** The first ordering in `orders` whose identifier equals `id`, else the site ordering. */
  function FindById(orders: seq<Ordering>, id: Option<string>): Ordering {
    if |orders| == 0 then BySite
    else if id == Some(Id(orders[0])) then orders[0]
    else FindById(orders[1..], id)
  }

  /**
   * `getMonitorComparator`: the ordering with the given identifier; any other
   * string, and null, selects the site ordering.
   */
  function GetMonitorComparator(id: Option<string>): (o: Ordering)
    ensures (exists p :: id == Some(Id(p))) ==> id == Some(Id(o))
    ensures (forall p :: id != Some(Id(p))) ==> o == BySite
  {
    ValuesComplete();
    FindByIdFound(Values, id);
    FindById(Values, id)
  }

  lemma ValuesComplete()
    ensures forall p: Ordering :: p in Values
  {
    forall p: Ordering ensures p in Values {
      match p
      case ByStation => assert Values[0] == p;
      case ByMonitor => assert Values[1] == p;
      case BySite => assert Values[2] == p;
      case ByLocation => assert Values[3] == p;
    }
  }

  lemma {:induction false} FindByIdFound(orders: seq<Ordering>, id: Option<string>)
    ensures (exists p :: p in orders && id == Some(Id(p))) ==> id == Some(Id(FindById(orders, id)))
    ensures (forall p :: p in orders ==> id != Some(Id(p))) ==> FindById(orders, id) == BySite
  {
    if |orders| > 0 {
      FindByIdFound(orders[1..], id);
      assert forall p :: p in orders[1..] ==> p in orders;
      if id != Some(Id(orders[0])) {
        assert forall p :: p in orders && p != orders[0] ==> p in orders[1..];
      }
    }
  }

  /** Every ordering is selected by its own identifier. */
  lemma GetMonitorComparatorRoundTrip(o: Ordering)
    ensures GetMonitorComparator(Some(Id(o))) == o
  {
  }

  function LowerCompare(a: string, b: string): int {
    CompareTo(ToLower(a), ToLower(b))
  }

  /** MONITOR: the exact monitor ID "unknown" sorts first, the rest alphabetically. */
  function CompareMonitor(a: MonitorInfo, b: MonitorInfo): Option<int> {
    if a.monitor.None? || b.monitor.None? then None
    else
      var x, y := a.monitor.value, b.monitor.value;
      if x == "unknown" && y != "unknown" then Some(-1)
      else if y == "unknown" && x != "unknown" then Some(1)
      else Some(LowerCompare(x, y))
  }

  /** SITE: the exact site "unknown" sorts first; ties fall through to MONITOR. */
  function CompareSite(a: MonitorInfo, b: MonitorInfo): Option<int> {
    if a.site.None? || b.site.None? then None
    else
      var x, y := a.site.value, b.site.value;
      if x == "unknown" && y == "unknown" then CompareMonitor(a, b)
      else if x == "unknown" then Some(-1)
      else if y == "unknown" then Some(1)
      else
        var i := LowerCompare(x, y);
        if i != 0 then Some(i) else CompareMonitor(a, b)
  }

  /** STATION: an empty station sorts first; ties fall through to SITE. */
  function CompareStation(a: MonitorInfo, b: MonitorInfo): Option<int> {
    if a.station.None? || b.station.None? then None
    else
      var x, y := a.station.value, b.station.value;
      if x == "" && y == "" then CompareSite(a, b)
      else if x == "" then Some(-1)
      else if y == "" then Some(1)
      else
        var i := LowerCompare(x, y);
        if i != 0 then Some(i) else CompareSite(a, b)
  }

  /** LOCATION: a missing or empty location sorts first; ties fall through to SITE. */
  function CompareLocation(a: MonitorInfo, b: MonitorInfo): Option<int> {
    var x, y := Location(a), Location(b);
    if x == "" && y == "" then CompareSite(a, b)
    else if x == "" then Some(-1)
    else if y == "" then Some(1)
    else
      var i := LowerCompare(x, y);
      if i != 0 then Some(i) else CompareSite(a, b)
  }

  function Compare(o: Ordering, a: MonitorInfo, b: MonitorInfo): Option<int> {
    match o
    case ByStation => CompareStation(a, b)
    case ByMonitor => CompareMonitor(a, b)
    case BySite => CompareSite(a, b)
    case ByLocation => CompareLocation(a, b)
  }

  function Negate(x: Option<int>): Option<int> {
    if x.None? then None else Some(-x.value)
  }

  lemma LowerCompareAntisymmetric(x: string, y: string)
    ensures LowerCompare(x, y) == -LowerCompare(y, x)
    ensures LowerCompare(x, y) == 0 <==> ToLower(x) == ToLower(y)
  {
    CompareToAntisymmetric(ToLower(x), ToLower(y));
    CompareToZeroIff(ToLower(x), ToLower(y));
  }

  lemma CompareMonitorAntisymmetric(a: MonitorInfo, b: MonitorInfo)
    ensures CompareMonitor(a, b) == Negate(CompareMonitor(b, a))
  {
    if a.monitor.Some? && b.monitor.Some? {
      LowerCompareAntisymmetric(a.monitor.value, b.monitor.value);
    }
  }

  lemma CompareSiteAntisymmetric(a: MonitorInfo, b: MonitorInfo)
    ensures CompareSite(a, b) == Negate(CompareSite(b, a))
  {
    CompareMonitorAntisymmetric(a, b);
    if a.site.Some? && b.site.Some? {
      LowerCompareAntisymmetric(a.site.value, b.site.value);
    }
  }

  /**
   * Swapping the arguments negates the result, and a comparison fails in one
   * direction exactly when it fails in the other.
   */
  lemma CompareAntisymmetric(o: Ordering, a: MonitorInfo, b: MonitorInfo)
    ensures Compare(o, a, b) == Negate(Compare(o, b, a))
  {
    CompareMonitorAntisymmetric(a, b);
    CompareSiteAntisymmetric(a, b);
    if a.station.Some? && b.station.Some? {
      LowerCompareAntisymmetric(a.station.value, b.station.value);
    }
    LowerCompareAntisymmetric(Location(a), Location(b));
  }

  /**
   * Every ordering is defined on complete monitors and says a monitor equals
   * itself; the field orderings fail exactly when their own field is null.
   */
  lemma CompareDefined(o: Ordering, a: MonitorInfo, b: MonitorInfo)
    ensures Complete(a) && Complete(b) ==> Compare(o, a, b).Some?
    ensures Complete(a) ==> Compare(o, a, a) == Some(0)
    ensures CompareMonitor(a, b).None? <==> a.monitor.None? || b.monitor.None?
    ensures a.site.None? || b.site.None? ==> CompareSite(a, b).None?
    ensures a.station.None? || b.station.None? ==> CompareStation(a, b).None?
  {
    if Complete(a) {
      LowerCompareAntisymmetric(a.monitor.value, a.monitor.value);
      LowerCompareAntisymmetric(a.site.value, a.site.value);
      LowerCompareAntisymmetric(a.station.value, a.station.value);
      LowerCompareAntisymmetric(Location(a), Location(a));
    }
  }

  /**
   * The site ordering puts an "unknown" site before every other site and
   * orders monitors of sites that differ only in case by their monitor ID.
   */
  lemma CompareSiteOrder(a: MonitorInfo, b: MonitorInfo)
    requires Complete(a) && Complete(b)
    ensures a.site == Some("unknown") && b.site != Some("unknown") ==> CompareSite(a, b) == Some(-1)
    ensures (a.site != Some("unknown") && b.site != Some("unknown") &&
             ToLower(a.site.value) == ToLower(b.site.value)) ==> CompareSite(a, b) == CompareMonitor(a, b)
  {
    LowerCompareAntisymmetric(a.site.value, b.site.value);
  }

  /** `a` may come before `b`: the comparison succeeds and is not positive. */
  predicate Le(o: Ordering, a: MonitorInfo, b: MonitorInfo) {
    var c := Compare(o, a, b);
    c.Some? && c.value <= 0
  }

  predicate Sorted(o: Ordering, xs: seq<MonitorInfo>) {
    forall i :: 0 <= i < |xs| - 1 ==> Le(o, xs[i], xs[i + 1])
  }

  predicate AllComplete(xs: seq<MonitorInfo>) {
    forall i :: 0 <= i < |xs| ==> Complete(xs[i])
  }

  /** Places `x` before the first element it does not sort after. */
  function Insert(o: Ordering, x: MonitorInfo, xs: seq<MonitorInfo>): (r: seq<MonitorInfo>)
    requires Complete(x) && AllComplete(xs) && Sorted(o, xs)
    ensures multiset(r) == multiset(xs) + multiset{x}
    ensures |r| == |xs| + 1 && AllComplete(r)
    ensures r[0] == x || (|xs| > 0 && r[0] == xs[0])
    ensures Sorted(o, r)
  {
    if |xs| == 0 then [x]
    else if Le(o, x, xs[0]) then [x] + xs
    else
      var rest := Insert(o, x, xs[1..]);
      CompareDefined(o, x, xs[0]);
      CompareAntisymmetric(o, xs[0], x);
      assert xs == [xs[0]] + xs[1..];
      [xs[0]] + rest
  }

  /**
   * `Collections.sort` with one of the orderings: the result is a
   * rearrangement of the input in which each monitor sorts no later than the
   * next. The monitors must be complete, or the comparison would fail.
   */
  function Sort(o: Ordering, xs: seq<MonitorInfo>): (r: seq<MonitorInfo>)
    requires AllComplete(xs)
    ensures multiset(r) == multiset(xs)
    ensures |r| == |xs| && AllComplete(r)
    ensures Sorted(o, r)
  {
    if |xs| == 0 then []
    else
      assert xs == xs[..|xs| - 1] + [xs[|xs| - 1]];
      Insert(o, xs[|xs| - 1], Sort(o, xs[..|xs| - 1]))
  }
}
