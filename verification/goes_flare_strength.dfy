/**
 * The strength of a solar flare as the GOES event lists write it: a category
 * letter A, B, C, M or X followed by the relative strength within the
 * category, for example "M1.2". The relative strength is kept in tenths;
 * the three characters after the letter are read in the "d.d" form the
 * lists use.
 */
module GoesFlareStrengths {
  import opened Results
  import opened JavaStrings

  /** Flare categories, weakest first: every M flare is stronger than every C flare. */
  datatype Category = A | B | C | M | X

  /** The position of the category in declaration order, which `Enum.compareTo` compares. */
  function Ordinal(c: Category): nat {
    match c
    case A => 0
    case B => 1
    case C => 2
    case M => 3
    case X => 4
  }

  function Letter(c: Category): char {
    match c
    case A => 'A'
    case B => 'B'
    case C => 'C'
    case M => 'M'
    case X => 'X'
  }

  /** `getCategory`: the category whose identifier equals the text, if any. */
  function CategoryOf(s: string): (r: Option<Category>)
    ensures r.Some? ==> s == [Letter(r.value)]
    ensures r.None? ==> s != "A" && s != "B" && s != "C" && s != "M" && s != "X"
  {
    if s == "A" then Some(A)
    else if s == "B" then Some(B)
    else if s == "C" then Some(C)
    else if s == "M" then Some(M)
    else if s == "X" then Some(X)
    else None
  }

  /** Every category is found by its own letter, and the ordinals order the letters A < B < C < M < X. */
  lemma CategoryLetters(c: Category, d: Category)
    ensures CategoryOf([Letter(c)]) == Some(c)
    ensures Ordinal(c) == Ordinal(d) <==> c == d
  {
  }

  /** A flare strength: the category and the relative strength in tenths. */
  datatype Strength = Strength(category: Category, tenths: nat)

  /** Why the constructor throws. */
  datatype ParseError = IndexOutOfBounds | NoCategory | BadNumber

  /** `Double.parseDouble` of the three characters after the letter, in tenths, for the "d.d" form. */
  function ParseTenths(s: string): (r: Option<nat>)
    requires |s| == 3
    ensures r.Some? ==> r.value < 100
  {
    if IsDigit(s[0]) && s[1] == '.' && IsDigit(s[2]) then Some(10 * DigitValue(s[0]) + DigitValue(s[2]))
    else None
  }

  /**
   * The constructor: the first character names the category, characters 1
   * to 3 give the relative strength, and whatever follows is ignored. The
   * checks run in that order: no first character, an unknown category, fewer
   * than four characters, a malformed number.
   */
  function Parse(s: string): (r: Result<Strength, ParseError>)
    ensures r.Ok? <==> |s| >= 4 && CategoryOf(s[..1]).Some? && ParseTenths(s[1..4]).Some?
    ensures r.Ok? ==> s[0] == Letter(r.value.category) && r.value.tenths < 100
    ensures |s| == 0 ==> r == Err(IndexOutOfBounds)
    ensures |s| > 0 && CategoryOf(s[..1]).None? ==> r == Err(NoCategory)
    ensures |s| > 0 && CategoryOf(s[..1]).Some? && |s| < 4 ==> r == Err(IndexOutOfBounds)
  {
    if |s| < 1 then Err(IndexOutOfBounds)
    else
      var c := CategoryOf(s[..1]);
      if c.None? then Err(NoCategory)
      else if |s| < 4 then Err(IndexOutOfBounds)
      else
        var t := ParseTenths(s[1..4]);
        if t.None? then Err(BadNumber) else Ok(Strength(c.value, t.value))
  }

  function Sign(x: int): int {
    if x < 0 then -1 else if x > 0 then 1 else 0
  }

  /**
   * `compareTo`: zero against null; otherwise by category, and within one
   * category by relative strength (as `Double.compareTo`, so -1, 0 or 1).
   */
  function CompareTo(a: Strength, b: Option<Strength>): (r: int)
    ensures b.None? ==> r == 0
    ensures b.Some? ==>
              (r < 0 <==>
                 (Ordinal(a.category) < Ordinal(b.value.category) ||
                  (a.category == b.value.category && a.tenths < b.value.tenths)))
    ensures b.Some? ==> (r == 0 <==> a == b.value)
  {
    if b.None? then 0
    else if Ordinal(a.category) == Ordinal(b.value.category) then Sign(a.tenths - b.value.tenths)
    else Ordinal(a.category) - Ordinal(b.value.category)
  }

  /** The order is antisymmetric, reflexive and transitive: a total order on strengths. */
  lemma CompareToOrder(a: Strength, b: Strength, c: Strength)
    ensures Sign(CompareTo(a, Some(b))) == -Sign(CompareTo(b, Some(a)))
    ensures CompareTo(a, Some(a)) == 0
    ensures CompareTo(a, Some(b)) <= 0 && CompareTo(b, Some(c)) <= 0 ==> CompareTo(a, Some(c)) <= 0
  {
  }

  /** Any flare of a higher category is stronger, whatever the relative strengths. */
  lemma CategoryDominates(a: Strength, b: Strength)
    requires Ordinal(a.category) < Ordinal(b.category)
    ensures CompareTo(a, Some(b)) < 0 && CompareTo(b, Some(a)) > 0
  {
  }

  /** `String.format("%1.1f")` of a value held in tenths. */
  function FormatTenths(t: nat): string {
    NatToString(t / 10) + "." + [DigitChar(t % 10)]
  }

  /** `toString`: the category letter and the relative strength with one decimal. */
  function ToString(s: Strength): string {
    [Letter(s.category)] + FormatTenths(s.tenths)
  }

  /** A strength below 10 prints as four characters that parse back to it. */
  lemma ToStringRoundTrip(s: Strength)
    requires s.tenths < 100
    ensures |ToString(s)| == 4
    ensures Parse(ToString(s)) == Ok(s)
  {
    var str := ToString(s);
    assert NatToString(s.tenths / 10) == [DigitChar(s.tenths / 10)];
    assert str == [Letter(s.category), DigitChar(s.tenths / 10), '.', DigitChar(s.tenths % 10)];
    assert str[..1] == [Letter(s.category)];
    CategoryLetters(s.category, s.category);
    assert str[1..4] == [DigitChar(s.tenths / 10), '.', DigitChar(s.tenths % 10)];
  }

  /** Printing a parsed strength gives back the four characters it was read from. */
  lemma ParseRoundTrip(str: string)
    requires Parse(str).Ok?
    ensures ToString(Parse(str).value) == str[..4]
  {
    var s := Parse(str).value;
    var d0 := DigitValue(str[1]);
    var d2 := DigitValue(str[3]);
    assert s.tenths == 10 * d0 + d2;
    assert s.tenths / 10 == d0 && s.tenths % 10 == d2;
    assert DigitChar(d0) == str[1] && DigitChar(d2) == str[3];
    assert str[..4] == [str[0], str[1], str[2], str[3]];
  }
}
