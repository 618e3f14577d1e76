/**
 * The handful of java.lang.String operations the browser relies on, written
 * out with Java's exact semantics where they matter: `split` drops trailing
 * empty pieces, `compareTo` returns the difference of the first differing
 * characters (or of the lengths), `Integer.parseInt` accepts one optional
 * sign and rejects values outside 32 bits. Case conversion is ASCII only.
 */
module JavaStrings {
  import opened Results

  /** Java's regular-expression class `\s`: space, tab, newline, vertical tab, form feed, return. */
  predicate IsSpace(c: char) {
    c == ' ' || c == '\t' || c == '\n' || c == '\r' || c as int == 11 || c as int == 12
  }

  predicate IsDigit(c: char) {
    '0' <= c <= '9'
  }

  function LowerChar(c: char): char {
    if 'A' <= c <= 'Z' then (c as int + 32) as char else c
  }

  /** `String.toLowerCase`, restricted to the ASCII letters. */
  function ToLower(s: string): (r: string)
    ensures |r| == |s|
    ensures forall i :: 0 <= i < |s| ==> r[i] == LowerChar(s[i])
  {
    if |s| == 0 then "" else [LowerChar(s[0])] + ToLower(s[1..])
  }

  predicate StartsWith(s: string, prefix: string) {
    |prefix| <= |s| && s[..|prefix|] == prefix
  }

  predicate OccursAt(s: string, sub: string, i: int) {
    0 <= i && i + |sub| <= |s| && s[i..i + |sub|] == sub
  }

  /** `String.contains`. */
  predicate Contains(s: string, sub: string) {
    exists i :: 0 <= i <= |s| - |sub| && OccursAt(s, sub, i)
  }

  /** A string never contains anything longer than itself. */
  lemma ContainsNoLonger(s: string, sub: string)
    requires |sub| > |s|
    ensures !Contains(s, sub)
  {
  }

  /** `List.indexOf`: the first position holding `x`, or -1. */
  function IndexOf<T(==)>(xs: seq<T>, x: T): (r: int)
    ensures -1 <= r < |xs|
    ensures r == -1 <==> x !in xs
    ensures r >= 0 ==> xs[r] == x && forall j :: 0 <= j < r ==> xs[j] != x
  {
    if |xs| == 0 then -1
    else if xs[0] == x then 0
    else
      var k := IndexOf(xs[1..], x);
      if k == -1 then -1 else k + 1
  }

  function CountChar(s: string, c: char): nat {
    if |s| == 0 then 0 else (if s[0] == c then 1 else 0) + CountChar(s[1..], c)
  }

  lemma {:induction false} CountCharAppend(a: string, b: string, c: char)
    ensures CountChar(a + b, c) == CountChar(a, c) + CountChar(b, c)
  {
    if |a| == 0 {
      assert a + b == b;
    } else {
      assert (a + b)[1..] == a[1..] + b;
      CountCharAppend(a[1..], b, c);
    }
  }

  /**
   * The UTF-16 code units of a character, as a Java string stores it: the
   * character itself below U+10000, otherwise a high and a low surrogate.
   */
  function CodeUnits(c: char): (r: seq<int>)
    ensures 1 <= |r| <= 2 && (|r| == 1 <==> c as int < 0x1_0000)
    ensures |r| == 1 ==> r[0] < 0xD800 || 0xE000 <= r[0]
    ensures |r| == 2 ==> 0xD800 <= r[0] < 0xDC00 && 0xDC00 <= r[1] < 0xE000
  {
    var v := c as int;
    if v < 0x1_0000 then [v]
    else [0xD800 + (v - 0x1_0000) / 0x400, 0xDC00 + (v - 0x1_0000) % 0x400]
  }

  /** A character's code units determine it, and no encoding is a proper prefix of another. */
  lemma CodeUnitsPrefix(x: char, y: char, u: seq<int>, w: seq<int>)
    requires CodeUnits(x) + u == CodeUnits(y) + w
    ensures x == y && u == w
  {
    var cx, cy := CodeUnits(x), CodeUnits(y);
    assert (cx + u)[0] == cx[0] && (cy + w)[0] == cy[0];
    assert |cx| == |cy|;
    assert (cx + u)[..|cx|] == cx && (cy + w)[..|cy|] == cy;
    assert cx == cy;
    if |cx| == 2 {
      var v, t := x as int - 0x1_0000, y as int - 0x1_0000;
      assert v == (cx[0] - 0xD800) * 0x400 + (cx[1] - 0xDC00);
      assert t == (cy[0] - 0xD800) * 0x400 + (cy[1] - 0xDC00);
    }
    assert x as int == y as int;
    assert u == (cx + u)[|cx|..] && w == (cy + w)[|cy|..];
  }

  /** The UTF-16 code units of a string. */
  function Utf16(s: string): (r: seq<int>)
    ensures |r| >= |s|
  {
    if |s| == 0 then [] else CodeUnits(s[0]) + Utf16(s[1..])
  }

  /** Strings with the same code units are the same string. */
  lemma {:induction false} Utf16Injective(a: string, b: string)
    requires Utf16(a) == Utf16(b)
    ensures a == b
  {
    if |a| > 0 && |b| > 0 {
      CodeUnitsPrefix(a[0], b[0], Utf16(a[1..]), Utf16(b[1..]));
      Utf16Injective(a[1..], b[1..]);
      assert a == [a[0]] + a[1..] && b == [b[0]] + b[1..];
    }
  }

  /** Lexicographic comparison of code units: the first difference, else the difference in length. */
  function CompareUnits(a: seq<int>, b: seq<int>): int {
    if |a| == 0 || |b| == 0 then |a| - |b|
    else if a[0] != b[0] then a[0] - b[0]
    else CompareUnits(a[1..], b[1..])
  }

  lemma {:induction false} CompareUnitsAntisymmetric(a: seq<int>, b: seq<int>)
    ensures CompareUnits(a, b) == -CompareUnits(b, a)
  {
    if |a| > 0 && |b| > 0 && a[0] == b[0] {
      CompareUnitsAntisymmetric(a[1..], b[1..]);
    }
  }

  lemma {:induction false} CompareUnitsZeroIff(a: seq<int>, b: seq<int>)
    ensures CompareUnits(a, b) == 0 <==> a == b
  {
    if |a| > 0 && |b| > 0 {
      if a[0] == b[0] {
        CompareUnitsZeroIff(a[1..], b[1..]);
        assert a == [a[0]] + a[1..] && b == [b[0]] + b[1..];
      }
    }
  }

  /**
   * `String.compareTo`: lexicographic on UTF-16 code units, then on the
   * number of code units. A character above U+FFFF therefore compares by its
   * high surrogate, below any character from U+E000 up.
   */
  function CompareTo(a: string, b: string): int {
    CompareUnits(Utf16(a), Utf16(b))
  }

  lemma CompareToAntisymmetric(a: string, b: string)
    ensures CompareTo(a, b) == -CompareTo(b, a)
  {
    CompareUnitsAntisymmetric(Utf16(a), Utf16(b));
  }

  lemma CompareToZeroIff(a: string, b: string)
    ensures CompareTo(a, b) == 0 <==> a == b
  {
    CompareUnitsZeroIff(Utf16(a), Utf16(b));
    if Utf16(a) == Utf16(b) {
      Utf16Injective(a, b);
    }
  }

  /** On characters below U+10000 the comparison is by character code, first difference first. */
  lemma CompareToBasic(x: char, y: char)
    requires x as int < 0x1_0000 && y as int < 0x1_0000 && x != y
    ensures CompareTo([x], [y]) == x as int - y as int
  {
  }

  /** A character above U+FFFF sorts before U+E000, although its code is larger. */
  lemma CompareToSupplementary()
    ensures CompareTo("\U{10000}", "\U{E000}") < 0
  {
    assert Utf16("\U{10000}") == [0xD800, 0xDC00];
    assert Utf16("\U{E000}") == [0xE000];
  }

  /** The pieces of `s` between the characters of `delims`, empty pieces included. */
  function RawSplit(s: string, delims: set<char>): (r: seq<string>)
    ensures |r| >= 1
  {
    if |s| == 0 then [""]
    else
      var rest := RawSplit(s[1..], delims);
      if s[0] in delims then [""] + rest else [[s[0]] + rest[0]] + rest[1..]
  }

  function DropTrailingEmpty(xs: seq<string>): (r: seq<string>)
    ensures |r| <= |xs| && r == xs[..|r|]
    ensures |r| > 0 ==> r[|r| - 1] != ""
    ensures forall j :: |r| <= j < |xs| ==> xs[j] == ""
  {
    if |xs| > 0 && xs[|xs| - 1] == "" then DropTrailingEmpty(xs[..|xs| - 1]) else xs
  }

  /**
   * `String.split` with a single-character delimiter class and no limit: when a
   * delimiter occurs, trailing empty pieces are dropped; when none occurs the
   * result is the input alone, even if it is empty.
   */
  function Split(s: string, delims: set<char>): seq<string> {
    var raw := RawSplit(s, delims);
    if |raw| == 1 then raw else DropTrailingEmpty(raw)
  }

  function TrimLeft(s: string): (r: string)
    ensures |r| <= |s| && r == s[|s| - |r|..]
    ensures |r| > 0 ==> !IsSpace(r[0])
  {
    if |s| > 0 && IsSpace(s[0]) then TrimLeft(s[1..]) else s
  }

  lemma TrimLeftNoSpace(s: string)
    requires |s| > 0 && !IsSpace(s[0])
    ensures TrimLeft(s) == s
  {
  }

  function TrimRight(s: string): (r: string)
    ensures |r| <= |s| && r == s[..|r|]
    ensures |r| > 0 ==> !IsSpace(r[|r| - 1])
  {
    if |s| > 0 && IsSpace(s[|s| - 1]) then TrimRight(s[..|s| - 1]) else s
  }

  /**
   * `String.split("\\s*=\\s*")`: every '=' together with the whitespace run on
   * either side of it is a delimiter, so a piece loses the whitespace next to
   * a neighbouring '=' but keeps whitespace at the ends of the whole string.
   */
  function SplitAroundEquals(s: string): seq<string> {
    var raw := RawSplit(s, {'='});
    var n := |raw| - 1;
    var trimmed := seq(|raw|, i requires 0 <= i < |raw| =>
      var p := if i < n then TrimRight(raw[i]) else raw[i];
      if i > 0 then TrimLeft(p) else p);
    if |raw| == 1 then raw else DropTrailingEmpty(trimmed)
  }

  lemma {:induction false} RawSplitNoDelim(s: string, delims: set<char>)
    requires forall i :: 0 <= i < |s| ==> s[i] !in delims
    ensures RawSplit(s, delims) == [s]
  {
    if |s| > 0 {
      RawSplitNoDelim(s[1..], delims);
      assert [s[0]] + s[1..] == s;
    }
  }

  /** A delimiter-free piece followed by a delimiter comes off the front of the split. */
  lemma {:induction false} RawSplitCons(a: string, d: char, rest: string, delims: set<char>)
    requires d in delims
    requires forall i :: 0 <= i < |a| ==> a[i] !in delims
    ensures RawSplit(a + [d] + rest, delims) == [a] + RawSplit(rest, delims)
  {
    if |a| == 0 {
      assert a + [d] + rest == [d] + rest;
      assert ([d] + rest)[1..] == rest;
    } else {
      assert (a + [d] + rest)[1..] == a[1..] + [d] + rest;
      RawSplitCons(a[1..], d, rest, delims);
      assert [a[0]] + a[1..] == a;
    }
  }

  lemma RawSplitPair(a: string, d: char, b: string, delims: set<char>)
    requires d in delims
    requires forall i :: 0 <= i < |a| ==> a[i] !in delims
    requires forall i :: 0 <= i < |b| ==> b[i] !in delims
    ensures RawSplit(a + [d] + b, delims) == [a, b]
  {
    RawSplitCons(a, d, b, delims);
    RawSplitNoDelim(b, delims);
  }

  /** `String.join` with a one-character separator. */
  function Join(parts: seq<string>, d: char): string {
    if |parts| == 0 then ""
    else if |parts| == 1 then parts[0]
    else parts[0] + [d] + Join(parts[1..], d)
  }

  /** Splitting a joined line on its separator gives the pieces back. */
  lemma {:induction false} RawSplitJoin(parts: seq<string>, d: char)
    requires |parts| > 0
    requires forall k, i :: 0 <= k < |parts| && 0 <= i < |parts[k]| ==> parts[k][i] != d
    ensures RawSplit(Join(parts, d), {d}) == parts
  {
    if |parts| == 1 {
      RawSplitNoDelim(parts[0], {d});
    } else {
      assert forall i :: 0 <= i < |parts[0]| ==> parts[0][i] != d;
      RawSplitCons(parts[0], d, Join(parts[1..], d), {d});
      RawSplitJoin(parts[1..], d);
    }
  }

  /**
   * A `key=value` line splits into exactly the key and the value when neither
   * holds '=', the key does not end and the value does not start with
   * whitespace, and the value is not empty.
   */
  lemma SplitAroundEqualsPair(key: string, value: string)
    requires forall i :: 0 <= i < |key| ==> key[i] != '='
    requires forall i :: 0 <= i < |value| ==> value[i] != '='
    requires |key| > 0 ==> !IsSpace(key[|key| - 1])
    requires |value| > 0 && !IsSpace(value[0])
    ensures SplitAroundEquals(key + "=" + value) == [key, value]
  {
    RawSplitPair(key, '=', value, {'='});
    assert TrimRight(key) == key;
    assert TrimLeft(value) == value;
  }

  function DigitValue(c: char): nat
    requires IsDigit(c)
  {
    c as int - '0' as int
  }

  /** The value of a non-empty run of decimal digits. */
  function DigitsValue(s: string): nat
    requires forall i :: 0 <= i < |s| ==> IsDigit(s[i])
  {
    if |s| == 0 then 0 else DigitsValue(s[..|s| - 1]) * 10 + DigitValue(s[|s| - 1])
  }

  predicate AllDigits(s: string) {
    |s| > 0 && forall i :: 0 <= i < |s| ==> IsDigit(s[i])
  }

  const INT_MIN: int := -0x8000_0000
  const INT_MAX: int := 0x7fff_ffff

  /** `Integer.parseInt`: an optional sign, one or more digits, and a 32-bit value. */
  function ParseInt(s: string): (r: Option<int>)
    ensures r.Some? ==> INT_MIN <= r.value <= INT_MAX
    ensures r.Some? ==> |s| > 0
  {
    if |s| > 0 && (s[0] == '-' || s[0] == '+') then
      if AllDigits(s[1..]) then
        var v: int := if s[0] == '-' then 0 - (DigitsValue(s[1..]) as int) else DigitsValue(s[1..]);
        if INT_MIN <= v <= INT_MAX then Some(v) else None
      else None
    else if AllDigits(s) && DigitsValue(s) <= INT_MAX then Some(DigitsValue(s))
    else None
  }

  function DigitChar(d: nat): char
    requires d < 10
  {
    ('0' as int + d) as char
  }

  /** Decimal rendering of a natural number, as `Integer.toString` gives it. */
  function NatToString(n: nat): (r: string)
    ensures |r| > 0
    ensures forall i :: 0 <= i < |r| ==> IsDigit(r[i])
  {
    if n < 10 then [DigitChar(n)] else NatToString(n / 10) + [DigitChar(n % 10)]
  }

  lemma {:induction false} NatToStringRoundTrip(n: nat)
    ensures DigitsValue(NatToString(n)) == n
  {
    var r := NatToString(n);
    if n >= 10 {
      NatToStringRoundTrip(n / 10);
      assert r[..|r| - 1] == NatToString(n / 10);
    }
  }
}
