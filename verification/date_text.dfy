/** The issue-date text: the operator types DD-MM-YYYY or DD/MM/YYYY, every
    '/' is turned into '-', and the result is read with the pattern
    `%d-%m-%Y` and checked as a calendar date. The notification renders
    dates with `%d/%m/%Y`. */
module DateText {
  import opened Results
  import opened Dates

  datatype ParseError =
    | Malformed           // the text does not have the shape D-M-YYYY
    | NotACalendarDate    // it has the shape, but names no real day (31-04-2024)

  predicate IsDigit(c: char)
  {
    '0' <= c <= '9'
  }

  predicate AllDigits(s: string)
  {
    forall i :: 0 <= i < |s| ==> IsDigit(s[i])
  }

  function DigitOf(c: char): int
  {
    c as int - '0' as int
  }

  /** The decimal number a string of digits spells, most significant first. */
  function DecimalValue(s: string): (v: nat)
    requires AllDigits(s)
    decreases |s|
  {
    if s == [] then 0
    else DecimalValue(s[..|s| - 1]) * 10 + DigitOf(s[|s| - 1])
  }

  function DigitChar(n: nat): (c: char)
    requires n < 10
    ensures IsDigit(c) && DigitOf(c) == n
  {
    ['0', '1', '2', '3', '4', '5', '6', '7', '8', '9'][n]
  }

  function Pow10(k: nat): nat
  {
    if k == 0 then 1 else 10 * Pow10(k - 1)
  }

  /** The separator normalisation of the input: each '/' becomes '-'. */
  function Normalize(s: string): (r: string)
    ensures |r| == |s|
    ensures forall i :: 0 <= i < |s| ==> r[i] == (if s[i] == '/' then '-' else s[i])
  {
    if s == [] then [] else [if s[0] == '/' then '-' else s[0]] + Normalize(s[1..])
  }

  /** The text splits as a day of `a` digits, '-', a month of `b` digits, '-'
      and a year of exactly four digits. */
  predicate HasShape(t: string, a: nat, b: nat)
  {
    && 1 <= a <= 2 && 1 <= b <= 2
    && |t| == a + b + 6
    && AllDigits(t[..a]) && t[a] == '-'
    && AllDigits(t[a + 1..a + 1 + b]) && t[a + 1 + b] == '-'
    && AllDigits(t[a + b + 2..])
  }

  /** The date named by a text of the given shape (not yet checked as a calendar date). */
  function FieldsAt(t: string, a: nat, b: nat): Date
    requires HasShape(t, a, b)
  {
    Date(DecimalValue(t[a + b + 2..]), DecimalValue(t[a + 1..a + 1 + b]), DecimalValue(t[..a]))
  }

  /** Reads a normalised text with the pattern `%d-%m-%Y`: one or two digits of
      day, one or two of month, four of year. */
  function Fields(t: string): Option<Date>
  {
    if HasShape(t, 1, 1) then Some(FieldsAt(t, 1, 1))
    else if HasShape(t, 1, 2) then Some(FieldsAt(t, 1, 2))
    else if HasShape(t, 2, 1) then Some(FieldsAt(t, 2, 1))
    else if HasShape(t, 2, 2) then Some(FieldsAt(t, 2, 2))
    else None
  }

  /** The issue-date parse: separators normalised, fields read, then the date
      checked against the calendar. */
  function Parse(text: string): (r: Result<Date, ParseError>)
    ensures r.Ok? ==> ValidDate(r.value)
  {
    var fields := Fields(Normalize(text));
    if fields.None? then Err(Malformed)
    else if ValidDate(fields.value) then Ok(fields.value)
    else Err(NotACalendarDate)
  }

  /** Two characters that are equal once '/' is read as '-'. */
  predicate SameUpToSeparator(c1: char, c2: char)
  {
    c1 == c2 || (c1 in "/-" && c2 in "/-")
  }

  /** `DD/MM/YYYY`, `DD-MM-YYYY` and any mixture of the two separators name the same date. */
  lemma ParseIgnoresSeparatorKind(s1: string, s2: string)
    requires |s1| == |s2|
    requires forall i :: 0 <= i < |s1| ==> SameUpToSeparator(s1[i], s2[i])
    ensures Parse(s1) == Parse(s2)
  {
    var t1, t2 := Normalize(s1), Normalize(s2);
    forall i | 0 <= i < |t1|
      ensures t1[i] == t2[i]
    {
      assert SameUpToSeparator(s1[i], s2[i]);
    }
    assert t1 == t2;
  }

  /** Two digits, zero padded (`%d`, `%m` of strftime). */
  function Pad2(n: nat): (r: string)
    requires n < 100
    ensures |r| == 2 && AllDigits(r) && DecimalValue(r) == n
  {
    var r := [DigitChar(n / 10), DigitChar(n % 10)];
    assert r[..1] == [DigitChar(n / 10)];
    assert [DigitChar(n / 10)][..0] == [];
    assert DecimalValue(r[..1]) == n / 10;
    r
  }

  /** A positive number in decimal without padding; the C library's `%Y`
      writes years before 1000 this way. */
  function Decimal(n: nat): (r: string)
    requires n >= 1
    ensures AllDigits(r) && DecimalValue(r) == n
    ensures |r| >= 1 && Pow10(|r| - 1) <= n < Pow10(|r|)
    decreases n
  {
    if n < 10 then
      var r := [DigitChar(n)];
      assert r[..0] == [];
      r
    else
      var r := Decimal(n / 10) + [DigitChar(n % 10)];
      assert r[..|r| - 1] == Decimal(n / 10);
      r
  }

  /** `strftime('%d/%m/%Y')`. */
  function Render(d: Date): (r: string)
    requires ValidDate(d)
    ensures |r| >= 7 && r[2] == '/' && r[5] == '/'
    ensures AllDigits(r[..2]) && DecimalValue(r[..2]) == d.day
    ensures AllDigits(r[3..5]) && DecimalValue(r[3..5]) == d.month
    ensures AllDigits(r[6..]) && DecimalValue(r[6..]) == d.year
    ensures |r| == 10 <==> d.year >= 1000
  {
    FourDigitYears(d.year);
    Pad2(d.day) + "/" + Pad2(d.month) + "/" + Decimal(d.year)
  }

  /** Only years 1000 .. 9999 take exactly four digits. */
  lemma FourDigitYears(n: nat)
    requires 1 <= n <= 9999
    ensures |Decimal(n)| == 4 <==> n >= 1000
  {
    var k := |Decimal(n)|;
    assert Pow10(1) == 10 && Pow10(2) == 100 && Pow10(3) == 1000 && Pow10(4) == 10000;
    if k >= 5 {
      assert Pow10(k - 1) >= Pow10(4) by { Pow10Ascends(4, k - 1); }
    }
  }

  lemma {:induction false} Pow10Ascends(i: nat, j: nat)
    requires i <= j
    ensures Pow10(i) <= Pow10(j)
    decreases j - i
  {
    if i < j {
      Pow10Ascends(i, j - 1);
    }
  }

  /** A rendered date parses back to itself exactly when its year has four
      digits; an earlier year is written too short for the `%Y` field. */
  lemma RenderRoundTrip(d: Date)
    requires ValidDate(d)
    ensures Parse(Render(d)) == Ok(d) <==> d.year >= 1000
  {
    var s := Render(d);
    RenderLayout(d);
    FourDigitYears(d.year);
    if d.year >= 1000 {
      ParseWide(s);
    } else {
      assert s[1] == s[..2][1] && s[4] == s[3..5][1];
      ParseTooShort(s);
    }
  }

  /** Where the fields of a rendered date sit. */
  lemma RenderLayout(d: Date)
    requires ValidDate(d)
    ensures var s := Render(d);
            && |s| == 6 + |Decimal(d.year)|
            && s[..2] == Pad2(d.day) && s[2] == '/'
            && s[3..5] == Pad2(d.month) && s[5] == '/'
            && s[6..] == Decimal(d.year)
  {
  }

  /** A text of seven to nine characters with digits where the separators of
      the short shapes would be has no shape at all. */
  lemma ParseTooShort(s: string)
    requires 7 <= |s| < 10 && IsDigit(s[1]) && IsDigit(s[4])
    ensures Parse(s) == Err(Malformed)
  {
    var t := Normalize(s);
    assert IsDigit(t[1]) && IsDigit(t[4]);
    assert Fields(t).None?;
  }

  /** Whatever text was accepted, re-rendering the date it named and parsing
      that again gives the same date. */
  lemma ParsedDateRoundTrips(text: string)
    requires Parse(text).Ok?
    ensures Parse(text).value.year >= 1000 ==> Parse(Render(Parse(text).value)) == Parse(text)
  {
    RenderRoundTrip(Parse(text).value);
  }

  /** Normalisation leaves text without '/' unchanged. */
  lemma NormalizeKeepsDashes(s: string)
    requires '/' !in s
    ensures Normalize(s) == s
  {
  }

  /** At most one shape fits a text, so `Fields` never has to choose. */
  lemma ShapesExclusive(t: string, a: nat, b: nat, a': nat, b': nat)
    requires HasShape(t, a, b) && HasShape(t, a', b')
    ensures a == a' && b == b'
  {
  }

  /** The outcome of parsing a text of a known shape. */
  lemma ParseByShape(s: string, a: nat, b: nat)
    requires HasShape(Normalize(s), a, b)
    ensures var d := FieldsAt(Normalize(s), a, b);
            Parse(s) == if ValidDate(d) then Ok(d) else Err(NotACalendarDate)
  {
    var t := Normalize(s);
    if HasShape(t, 1, 1) { ShapesExclusive(t, a, b, 1, 1); }
    else if HasShape(t, 1, 2) { ShapesExclusive(t, a, b, 1, 2); }
    else if HasShape(t, 2, 1) { ShapesExclusive(t, a, b, 2, 1); }
  }

  lemma DecimalValue1(s: string)
    requires |s| == 1 && AllDigits(s)
    ensures DecimalValue(s) == DigitOf(s[0])
  {
    assert s[..0] == [];
  }

  lemma DecimalValue2(s: string)
    requires |s| == 2 && AllDigits(s)
    ensures DecimalValue(s) == 10 * DigitOf(s[0]) + DigitOf(s[1])
  {
    assert s[..1][..0] == [];
    assert DecimalValue(s[..1]) == DigitOf(s[0]);
  }

  lemma DecimalValue4(s: string)
    requires |s| == 4 && AllDigits(s)
    ensures DecimalValue(s) == 1000 * DigitOf(s[0]) + 100 * DigitOf(s[1]) + 10 * DigitOf(s[2]) + DigitOf(s[3])
  {
    assert s[..3][..2] == s[..2];
    DecimalValue2(s[..2]);
  }

  /** The outcome of parsing a text of the full DD?MM?YYYY width. */
  lemma ParseWide(s: string)
    requires |s| == 10 && s[2] in "/-" && s[5] in "/-"
    requires AllDigits(s[..2]) && AllDigits(s[3..5]) && AllDigits(s[6..])
    ensures var d := Date(DecimalValue(s[6..]), DecimalValue(s[3..5]), DecimalValue(s[..2]));
            Parse(s) == if ValidDate(d) then Ok(d) else Err(NotACalendarDate)
  {
    var t := Normalize(s);
    assert t[..2] == s[..2];
    assert t[3..5] == s[3..5];
    assert t[6..] == s[6..];
    assert HasShape(t, 2, 2);
    ParseByShape(s, 2, 2);
  }

  /** "15-01-2024", "15/01/2024" and both mixtures all name 15 January 2024. */
  lemma ParseFifteenJanuary(s: string)
    requires |s| == 10 && s[2] in "/-" && s[5] in "/-"
    requires s[..2] == "15" && s[3..5] == "01" && s[6..] == "2024"
    ensures Parse(s) == Ok(Date(2024, 1, 15))
  {
    DecimalValue2("15");
    DecimalValue2("01");
    DecimalValue4("2024");
    ParseWide(s);
  }

  /** The outcome of parsing a text of the shortest D?M?YYYY width. */
  lemma ParseNarrow(s: string)
    requires |s| == 8 && s[1] in "/-" && s[3] in "/-"
    requires IsDigit(s[0]) && IsDigit(s[2]) && AllDigits(s[4..])
    ensures var d := Date(DecimalValue(s[4..]), DigitOf(s[2]), DigitOf(s[0]));
            Parse(s) == if ValidDate(d) then Ok(d) else Err(NotACalendarDate)
  {
    var t := Normalize(s);
    assert t[0] == s[0] && t[2] == s[2];
    assert t[..1] == [s[0]] && t[2..3] == [s[2]];
    DecimalValue1(t[..1]);
    DecimalValue1(t[2..3]);
    assert t[4..] == s[4..];
    assert HasShape(t, 1, 1);
    ParseByShape(s, 1, 1);
  }

  /** Single-digit day and month are accepted, as `%d` and `%m` allow. */
  lemma ParseShortFields(s: string)
    requires s == "1/3/2024"
    ensures Parse(s) == Ok(Date(2024, 3, 1))
  {
    assert s[4..] == "2024";
    DecimalValue4("2024");
    ParseNarrow(s);
  }

  lemma ParseLeapDay(s: string)
    requires s == "29-02-2024"
    ensures Parse(s) == Ok(Date(2024, 2, 29))
  {
    assert s[..2] == "29" && s[3..5] == "02" && s[6..] == "2024";
    DecimalValue2("29");
    DecimalValue2("02");
    DecimalValue4("2024");
    ParseWide(s);
  }

  /** Texts of the right shape that name no calendar day are rejected. */
  lemma ParseRejectsMonth13(s: string)
    requires s == "31-13-2024"
    ensures Parse(s) == Err(NotACalendarDate)
  {
    assert s[3..5] == "13";
    DecimalValue2("13");
    ParseWide(s);
  }

  lemma ParseRejectsFebruary30(s: string)
    requires s == "30-02-2024"
    ensures Parse(s) == Err(NotACalendarDate)
  {
    assert s[..2] == "30" && s[3..5] == "02";
    DecimalValue2("30");
    DecimalValue2("02");
    ParseWide(s);
  }

  lemma ParseRejectsLeapDayOfCommonYear(s: string)
    requires s == "29-02-2023"
    ensures Parse(s) == Err(NotACalendarDate)
  {
    assert s[..2] == "29" && s[3..5] == "02" && s[6..] == "2023";
    DecimalValue2("29");
    DecimalValue2("02");
    DecimalValue4("2023");
    ParseWide(s);
  }

  /** Texts not in day-month-four-digit-year order are rejected. */
  lemma ParseRejectsOtherLayouts(isoOrder: string, shortYear: string)
    requires isoOrder == "2024-01-15" && shortYear == "15-01-24"
    ensures Parse(isoOrder) == Err(Malformed)
    ensures Parse(shortYear) == Err(Malformed)
    ensures Parse("") == Err(Malformed)
  {
    NormalizeKeepsDashes(isoOrder);
    NormalizeKeepsDashes(shortYear);
    assert Fields(isoOrder).None?;
    assert Fields(shortYear).None?;
  }
}
