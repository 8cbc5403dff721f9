/** The date helpers at the top of src/components/PhotoEditor.tsx: the DD-MM-YYYY display form
    and the two converters to and from the YYYY-MM-DD form a date input uses. */
module Dates {
  import opened Text

  /** What a `Date` contributes: `getFullYear()`, `getMonth() + 1` and `getDate()`. */
  datatype CalendarDate = CalendarDate(year: nat, month: int, day: int)

  /** The ranges a `Date` object's getters stay in. */
  predicate ValidDate(d: CalendarDate) { 1 <= d.month <= 12 && 1 <= d.day <= 31 }

  /** `s.padStart(2, "0")`. */
  function PadStart2(s: string): (r: string)
    ensures |r| == if |s| >= 2 then |s| else 2
    ensures r[|r| - |s|..] == s
    ensures forall i :: 0 <= i < |r| - |s| ==> r[i] == '0'
  {
    if |s| >= 2 then s else if |s| == 1 then "0" + s else "00"
  }

  /** A number below 100, zero-padded to two places, is a two-digit numeral of that number. */
  lemma TwoDigitNumeral(n: nat)
    requires n < 100
    ensures var p := PadStart2(NatToString(n)); |p| == 2 && AllDigits(p) && ParseDecimal(p) == n
  {
    var s := NatToString(n);
    ParseNatToString(n);
    if n < 10 {
      assert PadStart2(s) == "0" + s;
      ParseLeadingZero(s);
    }
  }

  /** The fields of a dash-separated string, `undefined` read as the empty string. */
  function Field(parts: seq<string>, k: nat): string
  {
    if k < |parts| then parts[k] else ""
  }

  /** `formatDisplayDate`: day and month zero-padded to two digits, then the year, joined by dashes. */
  function FormatDisplayDate(d: CalendarDate): (r: string)
    requires ValidDate(d)
    ensures |r| >= 7 && r[2] == '-' && r[5] == '-'
    ensures AllDigits(r[..2]) && AllDigits(r[3..5]) && AllDigits(r[6..])
  {
    var dd, mm, yyyy := PadStart2(NatToString(d.day as nat)), PadStart2(NatToString(d.month as nat)), NatToString(d.year);
    TwoDigitNumeral(d.day as nat);
    TwoDigitNumeral(d.month as nat);
    var r := dd + "-" + mm + "-" + yyyy;
    assert r[..2] == dd && r[3..5] == mm && r[6..] == yyyy;
    r
  }

  /** The display form splits into three fields: a two-digit day, a two-digit month and the year,
      each reading back as the number it came from. */
  lemma FormatDisplayDateFields(d: CalendarDate)
    requires ValidDate(d)
    ensures var parts := Split(FormatDisplayDate(d), '-');
      && |parts| == 3
      && |parts[0]| == 2 && AllDigits(parts[0]) && ParseDecimal(parts[0]) == d.day
      && |parts[1]| == 2 && AllDigits(parts[1]) && ParseDecimal(parts[1]) == d.month
      && AllDigits(parts[2]) && ParseDecimal(parts[2]) == d.year
  {
    var dd := PadStart2(NatToString(d.day as nat));
    var mm := PadStart2(NatToString(d.month as nat));
    var yyyy := NatToString(d.year);
    TwoDigitNumeral(d.day as nat);
    TwoDigitNumeral(d.month as nat);
    ParseNatToString(d.year);
    DigitsHaveNoDash(dd);
    DigitsHaveNoDash(mm);
    DigitsHaveNoDash(yyyy);
    SplitThree(dd, mm, yyyy);
  }

  lemma DigitsHaveNoDash(s: string)
    requires AllDigits(s)
    ensures '-' !in s
  {
  }

  lemma JoinThree(a: string, b: string, c: string)
    ensures Join([a, b, c], '-') == a + "-" + b + "-" + c
  {
    assert Join([c], '-') == c;
    assert [a, b, c][1..] == [b, c];
    assert [b, c][1..] == [c];
  }

  /** Three dash-free fields joined by dashes split back into those three fields. */
  lemma SplitThree(a: string, b: string, c: string)
    requires '-' !in a && '-' !in b && '-' !in c
    ensures Split(a + "-" + b + "-" + c, '-') == [a, b, c]
  {
    JoinThree(a, b, c);
    SplitJoin([a, b, c], '-');
  }

  /** `displayToInputDate`: DD-MM-YYYY to YYYY-MM-DD, or "" when a field is missing. */
  function DisplayToInputDate(display: string): (r: string)
    ensures var parts := Split(display, '-');
      r == "" <==> Field(parts, 0) == "" || Field(parts, 1) == "" || Field(parts, 2) == ""
  {
    var parts := Split(display, '-');
    var dd, mm, yyyy := Field(parts, 0), Field(parts, 1), Field(parts, 2);
    if dd == "" || mm == "" || yyyy == "" then ""
    else yyyy + "-" + mm + "-" + dd
  }

  /** `inputToDisplayDate`: YYYY-MM-DD to DD-MM-YYYY, or "" when the input is empty or a field is missing. */
  function InputToDisplayDate(input: string): (r: string)
    ensures var parts := Split(input, '-');
      r == "" <==> Field(parts, 0) == "" || Field(parts, 1) == "" || Field(parts, 2) == ""
  {
    if input == "" then ""
    else
      var parts := Split(input, '-');
      var yyyy, mm, dd := Field(parts, 0), Field(parts, 1), Field(parts, 2);
      if dd == "" || mm == "" || yyyy == "" then ""
      else dd + "-" + mm + "-" + yyyy
  }

  /** Both converters keep the first three fields and reverse their order; fields past the third are dropped. */
  lemma {:induction false} ConvertersReverseFields(s: string)
    requires var parts := Split(s, '-'); Field(parts, 0) != "" && Field(parts, 1) != "" && Field(parts, 2) != ""
    ensures var parts := Split(s, '-');
      Split(DisplayToInputDate(s), '-') == [parts[2], parts[1], parts[0]]
      && Split(InputToDisplayDate(s), '-') == [parts[2], parts[1], parts[0]]
  {
    var parts := Split(s, '-');
    SplitThree(parts[2], parts[1], parts[0]);
  }

  /** A display date of exactly three non-empty dash-free fields survives the round trip through the date input. */
  lemma {:induction false} DisplayRoundTrip(dd: string, mm: string, yyyy: string)
    requires dd != "" && mm != "" && yyyy != ""
    requires '-' !in dd && '-' !in mm && '-' !in yyyy
    ensures DisplayToInputDate(dd + "-" + mm + "-" + yyyy) == yyyy + "-" + mm + "-" + dd
    ensures InputToDisplayDate(DisplayToInputDate(dd + "-" + mm + "-" + yyyy)) == dd + "-" + mm + "-" + yyyy
  {
    SplitThree(dd, mm, yyyy);
    SplitThree(yyyy, mm, dd);
  }

  /** The same round trip read from the other side: an input date survives conversion to display form and back. */
  lemma {:induction false} InputRoundTrip(yyyy: string, mm: string, dd: string)
    requires dd != "" && mm != "" && yyyy != ""
    requires '-' !in dd && '-' !in mm && '-' !in yyyy
    ensures DisplayToInputDate(InputToDisplayDate(yyyy + "-" + mm + "-" + dd)) == yyyy + "-" + mm + "-" + dd
  {
    SplitThree(yyyy, mm, dd);
    SplitThree(dd, mm, yyyy);
  }

  /** Today's date, as the editor first stores it, is shown by the date input as YYYY-MM-DD and read back unchanged. */
  lemma {:induction false} FormattedDateRoundTrip(d: CalendarDate)
    requires ValidDate(d)
    ensures var parts := Split(FormatDisplayDate(d), '-');
      && |parts| == 3
      && DisplayToInputDate(FormatDisplayDate(d)) == parts[2] + "-" + parts[1] + "-" + parts[0]
      && InputToDisplayDate(DisplayToInputDate(FormatDisplayDate(d))) == FormatDisplayDate(d)
  {
    FormatDisplayDateFields(d);
    var s := FormatDisplayDate(d);
    var parts := Split(s, '-');
    assert parts == [parts[0], parts[1], parts[2]];
    JoinThree(parts[0], parts[1], parts[2]);
    DisplayRoundTrip(parts[0], parts[1], parts[2]);
  }
}
