/** The date conversion of both writers: time.Parse with the layout
    "02-01-2006" (two-digit day, '-', two-digit month, '-', four-digit year),
    the parse error discarded, then Format with the layout "2006-01-02". A
    failed parse yields Go's zero time, January 1 of year 1. Only the
    calendar date of a time is modelled; the layouts have no clock fields. */
module Dates {
  import opened SetlistTypes
  import opened Decimal

  datatype Date = Date(year: nat, month: nat, day: nat)

  const ZeroTime: Date := Date(1, 1, 1)

  /** A number read off the front of the input, and what follows it. */
  datatype Num = Num(value: nat, rest: string)

  /** getnum with `fixed` set: exactly two digits, or an error. */
  function TwoDigits(s: string): Option<Num> {
    if |s| >= 2 && IsDigit(s[0]) && IsDigit(s[1]) then Some(Num(Value(s[..2]), s[2..])) else None
  }

  /** The year field: at least four characters, the first a digit, and the
      four read as a whole decimal number (so all four are digits). */
  function LongYear(s: string): (r: Option<Num>)
    ensures r.Some? ==> r.value.value <= 9999
  {
    if |s| < 4 || !IsDigit(s[0]) then None
    else if AllDigits(s[..4]) then
      Value4(s[..4]);
      Some(Num(Value(s[..4]), s[4..]))
    else None
  }

  /** A literal separator of the layout must appear as it is. */
  function Skip(s: string, c: char): Option<string> {
    if |s| >= 1 && s[0] == c then Some(s[1..]) else None
  }

  predicate IsLeap(year: nat) {
    year % 4 == 0 && (year % 100 != 0 || year % 400 == 0)
  }

  /** Days before the start of each month in a common year. */
  const DaysBefore: seq<nat> := [0, 31, 59, 90, 120, 151, 181, 212, 243, 273, 304, 334, 365]

  function DaysIn(month: nat, year: nat): nat
    requires 1 <= month <= 12
  {
    if month == 2 && IsLeap(year) then 29 else DaysBefore[month] - DaysBefore[month - 1]
  }

  /** time.Parse("02-01-2006", s): None for every parse error. */
  function Parse(s: string): (r: Option<Date>)
    ensures r.Some? ==>
      r.value.year <= 9999 && 1 <= r.value.month <= 12 && 1 <= r.value.day <= DaysIn(r.value.month, r.value.year)
  {
    match TwoDigits(s)
    case None => None
    case Some(day) =>
      match Skip(day.rest, '-')
      case None => None
      case Some(r1) =>
        match TwoDigits(r1)
        case None => None
        case Some(month) =>
          if month.value < 1 || 12 < month.value then None
          else
            match Skip(month.rest, '-')
            case None => None
            case Some(r2) =>
              match LongYear(r2)
              case None => None
              case Some(year) =>
                if year.rest != [] then None
                else if day.value < 1 || day.value > DaysIn(month.value, year.value) then None
                else Some(Date(year.value, month.value, day.value))
  }

  /** Format("2006-01-02"): year padded to four digits, month and day to two. */
  function Format(d: Date): (r: string)
    ensures |r| >= 10
  {
    Pad(d.year, 4) + "-" + Pad(d.month, 2) + "-" + Pad(d.day, 2)
  }

  /** The conversion both writers apply to an event date. */
  function ReformatDate(s: string): string {
    match Parse(s)
    case Some(d) => Format(d)
    case None => Format(ZeroTime)
  }

  /** The inputs the parse accepts: DD-MM-YYYY in ASCII digits with a real
      month and a day that exists in that month of that Gregorian year. */
  predicate IsDayMonthYear(s: string) {
    |s| == 10 && s[2] == '-' && s[5] == '-' &&
    AllDigits(s[0..2]) && AllDigits(s[3..5]) && AllDigits(s[6..10]) &&
    1 <= Value(s[3..5]) <= 12 &&
    1 <= Value(s[0..2]) <= DaysIn(Value(s[3..5]), Value(s[6..10]))
  }

  lemma DaysInRange(month: nat, year: nat)
    requires 1 <= month <= 12
    ensures 28 <= DaysIn(month, year) <= 31
    ensures month == 2 ==> (DaysIn(month, year) == 29 <==> IsLeap(year))
  {
  }

  /** The parse succeeds exactly on well-formed dates and then reads the
      three fields off their positions. */
  lemma ParseExactly(s: string)
    ensures Parse(s).Some? <==> IsDayMonthYear(s)
    ensures Parse(s).Some? ==> Parse(s).value == Date(Value(s[6..10]), Value(s[3..5]), Value(s[0..2]))
  {
    if |s| >= 2 && IsDigit(s[0]) && IsDigit(s[1]) {
      var r0 := s[2..];
      assert s[..2] == s[0..2];
      if |r0| >= 1 && r0[0] == '-' {
        var r1 := r0[1..];
        assert r1 == s[3..];
        if |r1| >= 2 && IsDigit(r1[0]) && IsDigit(r1[1]) {
          assert r1[..2] == s[3..5];
          var r2 := r1[2..];
          assert r2 == s[5..];
          if |r2| >= 1 && r2[0] == '-' {
            var r3 := r2[1..];
            assert r3 == s[6..];
            if |r3| >= 4 {
              assert r3[..4] == s[6..10];
              assert r3[4..] == s[10..];
            }
          }
        }
      }
    }
  }

  /** A well-formed DD-MM-YYYY date comes out as YYYY-MM-DD. */
  lemma ReformatWellFormed(s: string)
    requires IsDayMonthYear(s)
    ensures ReformatDate(s) == s[6..10] + "-" + s[3..5] + "-" + s[0..2]
  {
    ParseExactly(s);
    ValuePad(s[6..10]);
    ValuePad(s[3..5]);
    ValuePad(s[0..2]);
  }

  /** Anything else comes out as the zero time's date. */
  lemma ReformatMalformed(s: string)
    requires !IsDayMonthYear(s)
    ensures ReformatDate(s) == "0001-01-01"
  {
    ParseExactly(s);
    ZeroTimeFormat();
  }

  lemma ZeroTimeFormat()
    ensures Format(ZeroTime) == "0001-01-01"
  {
    var zero, one := Digit(0), Digit(1);
    assert zero == '0' && one == '1';
    assert Pad(0, 1) == [zero];
    assert Pad(1, 2) == [zero, one];
    assert Pad(0, 2) == [zero, zero];
    assert Pad(0, 3) == [zero, zero, zero];
    assert Pad(1, 4) == [zero, zero, zero, one];
  }

  /** A converted date: ten characters, YYYY-MM-DD in ASCII digits. */
  predicate IsIsoDate(r: string) {
    |r| == 10 && r[4] == '-' && r[7] == '-' &&
    AllDigits(r[0..4]) && AllDigits(r[5..7]) && AllDigits(r[8..10])
  }

  lemma WellFormedShape(s: string)
    requires IsDayMonthYear(s)
    ensures IsIsoDate(ReformatDate(s))
  {
    ReformatWellFormed(s);
    var r := ReformatDate(s);
    assert r[0..4] == s[6..10] && r[5..7] == s[3..5] && r[8..10] == s[0..2];
  }

  lemma MalformedShape(s: string)
    requires !IsDayMonthYear(s)
    ensures IsIsoDate(ReformatDate(s))
  {
    ReformatMalformed(s);
    var r := ReformatDate(s);
    assert r[0..4] == "0001" && r[5..7] == "01" && r[8..10] == "01";
  }

  /** Every converted date is ten characters, YYYY-MM-DD in ASCII digits. */
  lemma ReformatShape(s: string)
    ensures IsIsoDate(ReformatDate(s))
  {
    if IsDayMonthYear(s) {
      WellFormedShape(s);
    } else {
      MalformedShape(s);
    }
  }

  /** The numbers a date given character by character stands for. */
  lemma DigitFields(s: string)
    requires |s| == 10
    requires IsDigit(s[0]) && IsDigit(s[1]) && IsDigit(s[3]) && IsDigit(s[4])
    requires IsDigit(s[6]) && IsDigit(s[7]) && IsDigit(s[8]) && IsDigit(s[9])
    ensures AllDigits(s[0..2]) && AllDigits(s[3..5]) && AllDigits(s[6..10])
    ensures Value(s[0..2]) == 10 * DigitValue(s[0]) + DigitValue(s[1])
    ensures Value(s[3..5]) == 10 * DigitValue(s[3]) + DigitValue(s[4])
    ensures Value(s[6..10]) == 1000 * DigitValue(s[6]) + 100 * DigitValue(s[7]) + 10 * DigitValue(s[8]) + DigitValue(s[9])
  {
    var d, m, y := s[0..2], s[3..5], s[6..10];
    assert d[0] == s[0] && d[1] == s[1] && m[0] == s[3] && m[1] == s[4];
    assert y[0] == s[6] && y[1] == s[7] && y[2] == s[8] && y[3] == s[9];
    Value2(d);
    Value2(m);
    Value4(y);
  }

  /** The well-formed conversion, character by character. */
  lemma ReformatMovesCharacters(s: string)
    requires IsDayMonthYear(s)
    ensures ReformatDate(s) == [s[6], s[7], s[8], s[9], '-', s[3], s[4], '-', s[0], s[1]]
  {
    ReformatWellFormed(s);
  }

  /** 5 June 2019. */
  lemma ReformatExampleJune(s: string)
    requires s == "05-06-2019"
    ensures ReformatDate(s) == "2019-06-05"
  {
    DigitFields(s);
    ReformatMovesCharacters(s);
  }

  /** 29 February exists in 2020 (divisible by 4). */
  lemma ReformatExampleLeapDay(s: string)
    requires s == "29-02-2020"
    ensures ReformatDate(s) == "2020-02-29"
  {
    DigitFields(s);
    ReformatMovesCharacters(s);
  }

  /** 29 February does not exist in 1900 (divisible by 100, not by 400). */
  lemma ReformatExampleNoLeapDay(s: string)
    requires s == "29-02-1900"
    ensures ReformatDate(s) == "0001-01-01"
  {
    DigitFields(s);
    assert !IsLeap(1900);
    ReformatMalformed(s);
  }

  /** A one-digit day is rejected: the layout's day field is fixed width. */
  lemma ReformatExampleShortDay(s: string)
    requires s == "5-06-2019"
    ensures ReformatDate(s) == "0001-01-01"
  {
    ReformatMalformed(s);
  }
}
