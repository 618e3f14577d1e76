/**
 * A SID monitor as the browser identifies it: a site, a monitor ID and the
 * VLF station it listens to. Java's `null` fields are `None`. Latitude,
 * longitude and the website are not modelled; they take no part in identity,
 * ordering or lookup.
 */
module Monitors {
  import opened Results
  import opened JavaStrings

  datatype MonitorInfo = MonitorInfo(
    site: Option<string>,
    monitor: Option<string>,
    station: Option<string>,
    location: Option<string>)

  /** The five-argument constructor: identity only, no location. */
  function FromIds(site: Option<string>, monitor: Option<string>, station: Option<string>): MonitorInfo {
    MonitorInfo(site, monitor, station, None)
  }

  /** The seven-argument constructor, which also records a location. */
  function WithLocation(site: Option<string>, monitor: Option<string>, station: Option<string>,
                        location: Option<string>): MonitorInfo {
    MonitorInfo(site, monitor, station, location)
  }

  /** All three identity fields are present. */
  predicate Complete(a: MonitorInfo) {
    a.site.Some? && a.monitor.Some? && a.station.Some?
  }

  /** `String.format("%s", x)`: a null field prints as "null". */
  function Show(x: Option<string>): string {
    if x.None? then "null" else x.value
  }

  /**
   * `MonitorInfo.equals`: the fields of the OTHER monitor must be non-null
   * and equal to this one's. The location never matters.
   */
  predicate Equals(a: MonitorInfo, b: MonitorInfo) {
    b.site.Some? && b.site == a.site &&
    b.monitor.Some? && b.monitor == a.monitor &&
    b.station.Some? && b.station == a.station
  }

  /**
   * Equality is symmetric and transitive, reflexive exactly on complete
   * monitors, and blind to the location.
   */
  lemma EqualsPartialEquivalence(a: MonitorInfo, b: MonitorInfo, c: MonitorInfo)
    ensures Equals(a, a) <==> Complete(a)
    ensures Equals(a, b) ==> Equals(b, a)
    ensures Equals(a, b) && Equals(b, c) ==> Equals(a, c)
    ensures Equals(a, b) <==>
              (Complete(a) && Complete(b) && a.site == b.site && a.monitor == b.monitor && a.station == b.station)
    ensures Equals(a, b) ==> Equals(a.(location := c.location), b)
  {
  }

  /** The string whose hash `hashCode` returns: the three fields run together. */
  function HashKey(a: MonitorInfo): string {
    Show(a.site) + Show(a.monitor) + Show(a.station)
  }

  /** Equal monitors have equal hash codes. */
  lemma EqualsSameHash(a: MonitorInfo, b: MonitorInfo)
    requires Equals(a, b)
    ensures HashKey(a) == HashKey(b)
  {
  }

  /** No two monitors of the collection are equal. */
  predicate Distinct(ms: seq<MonitorInfo>) {
    forall i, j :: 0 <= i < j < |ms| ==> !Equals(ms[i], ms[j])
  }

  /** Some monitor of the collection equals `m`. */
  predicate HasEqual(ms: seq<MonitorInfo>, m: MonitorInfo) {
    exists k :: 0 <= k < |ms| && Equals(m, ms[k])
  }

  /**
   * `HashSet<MonitorInfo>.add` of a freshly made monitor: it is added unless an
   * equal monitor is already there. Since an incomplete monitor equals
   * nothing, it is always added.
   */
  function AddMonitor(ms: seq<MonitorInfo>, m: MonitorInfo): (r: seq<MonitorInfo>)
    ensures Complete(m) ==> HasEqual(r, m)
    ensures forall k :: 0 <= k < |ms| ==> k < |r| && r[k] == ms[k]
    ensures forall x :: x in r ==> x in ms || x == m
    ensures !Complete(m) ==> r == ms + [m]
    ensures (forall x :: x in ms ==> Complete(x)) && Distinct(ms) ==> Distinct(r)
  {
    if HasEqual(ms, m) then ms
    else
      var r := ms + [m];
      assert Complete(m) ==> Equals(m, r[|ms|]);
      r
  }

  /** `toString`: site, monitor and station separated by single spaces. */
  function ToString(a: MonitorInfo): string {
    Show(a.site) + " " + Show(a.monitor) + " " + Show(a.station)
  }

  /** When no field holds a space, the printed form splits back into the fields. */
  lemma ToStringRoundTrip(a: MonitorInfo)
    requires Complete(a)
    requires forall i :: 0 <= i < |a.site.value| ==> a.site.value[i] != ' '
    requires forall i :: 0 <= i < |a.monitor.value| ==> a.monitor.value[i] != ' '
    requires forall i :: 0 <= i < |a.station.value| ==> a.station.value[i] != ' '
    ensures RawSplit(ToString(a), {' '}) == [a.site.value, a.monitor.value, a.station.value]
  {
    var parts := [a.site.value, a.monitor.value, a.station.value];
    assert Join(parts[2..], ' ') == a.station.value;
    assert Join(parts[1..], ' ') == a.monitor.value + [' '] + a.station.value;
    assert ToString(a) == Join(parts, ' ');
    RawSplitJoin(parts, ' ');
  }

  /** `getLocation`: the empty string when no location was recorded. */
  function Location(a: MonitorInfo): string {
    a.location.GetOr("")
  }

  /** `getIdentifier`: monitor, site and station joined by '$'. */
  function Identifier(a: MonitorInfo): string {
    Show(a.monitor) + "$" + Show(a.site) + "$" + Show(a.station)
  }

  /** The characters `java.util.regex` treats as line terminators. */
  predicate IsLineTerminator(c: char) {
    c == '\n' || c == '\r' || c as int == 0x85 || c as int == 0x2028 || c as int == 0x2029
  }

  /**
   * The length of the line terminator that ends `s` (2 for "\r\n"), or 0.
   * Outside multi-line mode the regex `$` matches only at the end of the input
   * and just before such a final terminator.
   */
  function FinalTerminatorLength(s: string): (k: nat)
    ensures k <= |s|
  {
    if |s| >= 2 && s[|s| - 2] == '\r' && s[|s| - 1] == '\n' then 2
    else if |s| >= 1 && IsLineTerminator(s[|s| - 1]) then 1
    else 0
  }

  /**
   * `s.split("$")`. The pattern is the end-of-input anchor, not a dollar
   * sign, so it matches with zero width only at the end and before a final
   * line terminator. A match at position 0 yields no leading piece and the
   * trailing empty piece is dropped, so there are two pieces exactly when
   * a non-empty text precedes a final terminator.
   */
  function SplitOnEndAnchor(s: string): (r: seq<string>)
    ensures 1 <= |r| <= 2
    ensures |r| == 1 ==> r[0] == s
    ensures |r| == 2 ==> r[0] + r[1] == s && r[0] != "" && FinalTerminatorLength(s) == |r[1]| > 0
  {
    var k := FinalTerminatorLength(s);
    if k > 0 && |s| > k then [s[..|s| - k], s[|s| - k..]] else [s]
  }

  /**
   * `equalsIdentifier` as written: it splits on the regex "$", which never
   * gives three pieces, so the source's three-piece branch is left out here.
   */
  predicate EqualsIdentifier(a: MonitorInfo, id: string) {
    var parts := SplitOnEndAnchor(id);
    if |parts| == 2 then
      a.monitor == Some(parts[0]) && a.site == Some(parts[1]) && a.station == Some("")
    else false
  }

  /** A string that is one line terminator, "\r\n" counting as one. */
  predicate IsTerminatorSequence(s: string) {
    (|s| == 1 && IsLineTerminator(s[0])) || s == "\r\n"
  }

  /**
   * As written, a match needs a site that is nothing but a line terminator
   * and an empty station; no identifier without a line terminator matches.
   */
  lemma EqualsIdentifierOnlyTerminatorSites(a: MonitorInfo, id: string)
    ensures EqualsIdentifier(a, id) ==>
              a.site.Some? && IsTerminatorSequence(a.site.value) && a.station == Some("")
    ensures (forall i :: 0 <= i < |id| ==> !IsLineTerminator(id[i])) ==> !EqualsIdentifier(a, id)
  {
    var parts := SplitOnEndAnchor(id);
    if |parts| == 2 {
      assert parts[1] == id[|id| - FinalTerminatorLength(id)..];
      assert IsLineTerminator(id[|id| - 1]);
    }
  }

  /** A monitor with an ordinary site does not match even its own identifier. */
  lemma OwnIdentifierNeverMatches(a: MonitorInfo)
    requires Complete(a)
    requires !IsTerminatorSequence(a.site.value)
    ensures !EqualsIdentifier(a, Identifier(a))
  {
    EqualsIdentifierOnlyTerminatorSites(a, Identifier(a));
  }

  /** The odd case where the as-written comparison does succeed. */
  lemma EqualsIdentifierTerminatorWitness()
    ensures EqualsIdentifier(FromIds(Some("\n"), Some("S-1"), Some("")), "S-1\n")
  {
    var id := "S-1\n";
    assert FinalTerminatorLength(id) == 1;
    assert id[..3] == "S-1" && id[3..] == "\n";
    assert SplitOnEndAnchor(id) == ["S-1", "\n"];
  }

  /** The comparison the method evidently intends: split on the '$' character. */
  predicate EqualsIdentifierIntended(a: MonitorInfo, id: string) {
    var parts := Split(id, {'$'});
    if |parts| == 3 then
      a.monitor == Some(parts[0]) && a.site == Some(parts[1]) && a.station == Some(parts[2])
    else if |parts| == 2 then
      a.monitor == Some(parts[0]) && a.site == Some(parts[1]) && a.station == Some("")
    else false
  }

  predicate NoDollar(s: string) {
    forall i :: 0 <= i < |s| ==> s[i] != '$'
  }

  /**
   * With '$'-free fields and a non-empty site, the intended comparison
   * accepts exactly the identifiers of equal monitors.
   */
  lemma EqualsIdentifierIntendedCorrect(a: MonitorInfo, b: MonitorInfo)
    requires Complete(b) && NoDollar(b.monitor.value) && NoDollar(b.site.value) && NoDollar(b.station.value)
    requires b.site.value != ""
    ensures EqualsIdentifierIntended(a, Identifier(b)) <==> Equals(a, b)
  {
    var parts := [b.monitor.value, b.site.value, b.station.value];
    assert Join(parts[2..], '$') == b.station.value;
    assert Join(parts[1..], '$') == b.site.value + ['$'] + b.station.value;
    assert Identifier(b) == Join(parts, '$');
    RawSplitJoin(parts, '$');
    var split := Split(Identifier(b), {'$'});
    if b.station.value == "" {
      assert parts[..|parts| - 1] == [b.monitor.value, b.site.value];
      assert DropTrailingEmpty([b.monitor.value, b.site.value]) == [b.monitor.value, b.site.value];
      assert split == [b.monitor.value, b.site.value];
    } else {
      assert split == parts;
    }
  }
}
