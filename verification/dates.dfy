/** Calendar days as integers. Day 0 is Thursday 1 January 1970 and day `n + 1` is the day
    after day `n`; the screens' `Date` values at local midnight are these day numbers. */
module Dates {
  import opened Wrappers
  import Text

  /** The day number of the proleptic Gregorian date `d`/`m`/`y` (days-from-civil). */
  function DaysFromCivil(y: int, m: int, d: int): int
    requires 1 <= m <= 12
  {
    var y' := if m <= 2 then y - 1 else y;
    var era := y' / 400;
    var yoe := y' - era * 400;
    var mp := if m > 2 then m - 3 else m + 9;
    var doy := (153 * mp + 2) / 5 + d - 1;
    var doe := yoe * 365 + yoe / 4 - yoe / 100 + doy;
    era * 146097 + doe - 719468
  }

  /** ECMAScript's MakeDay: a zero-based month index outside 0..11 carries into the year, and a
      day outside the month counts on from the first of that month. */
  function MakeDay(y: int, monthIndex: int, d: int): int {
    DaysFromCivil(y + monthIndex / 12, monthIndex % 12 + 1, 1) + d - 1
  }

  /** The `Date` constructor reads a year from 0 to 99 as 1900 to 1999. */
  function FullYear(y: int): (r: int)
    ensures 0 <= y <= 99 ==> r == 1900 + y
    ensures (y < 0 || y > 99) ==> r == y
  {
    if 0 <= y <= 99 then 1900 + y else y
  }

  /** `new Date(y, monthIndex, d)`, as a day number. */
  function LocalDate(y: int, monthIndex: int, d: int): int {
    MakeDay(FullYear(y), monthIndex, d)
  }

  /** The three numeric fields of a display date, as `Number` reads them. */
  datatype DateFields = DateFields(day: nat, month: nat, year: nat)

  /** `[day, month, year] = s.split('/')` followed by `Number` of each field; `None` when a
      field is NaN, including a field that is missing because `s` has fewer than two slashes.
      Fields after the third are ignored, as the destructuring ignores them. */
  function ParseDisplayDate(s: string): (r: Option<DateFields>)
    ensures |Text.Split(s, '/')| < 3 ==> r.None?
  {
    var parts := Text.Split(s, '/');
    if |parts| < 3 then None
    else
      var d, m, y := Text.NumberOf(parts[0]), Text.NumberOf(parts[1]), Text.NumberOf(parts[2]);
      if d.Some? && m.Some? && y.Some? then Some(DateFields(d.value, m.value, y.value)) else None
  }

  /** `new Date(Number(year), Number(month) - 1, Number(day))`: the day the fields denote, or
      `None` for the Invalid Date. */
  function DisplayDay(s: string): (r: Option<int>)
    ensures r.Some? <==> ParseDisplayDate(s).Some?
  {
    match ParseDisplayDate(s)
    case None => None
    case Some(f) => Some(LocalDate(f.year, f.month - 1, f.day))
  }

  /** A `DD/MM/YYYY` string made of digit fields reads as the fields it is made of. */
  lemma DisplayDateParses(dd: string, mm: string, yyyy: string)
    requires Text.AllDigits(dd) && Text.AllDigits(mm) && Text.AllDigits(yyyy)
    ensures ParseDisplayDate(dd + "/" + mm + "/" + yyyy)
      == Some(DateFields(Text.DecimalValue(dd), Text.DecimalValue(mm), Text.DecimalValue(yyyy)))
  {
    DigitsHaveNoSlash(dd);
    DigitsHaveNoSlash(mm);
    DigitsHaveNoSlash(yyyy);
    SplitDisplayDate(dd, mm, yyyy);
  }

  /** Splitting `DD/MM/YYYY` on the slash gives back the three fields. */
  lemma SplitDisplayDate(dd: string, mm: string, yyyy: string)
    requires '/' !in dd && '/' !in mm && '/' !in yyyy
    ensures Text.Split(dd + "/" + mm + "/" + yyyy, '/') == [dd, mm, yyyy]
  {
    Text.SplitWithout(yyyy, '/');
    Text.SplitAfterPrefix(mm, '/', yyyy);
    assert dd + "/" + mm + "/" + yyyy == dd + ['/'] + (mm + ['/'] + yyyy);
    Text.SplitAfterPrefix(dd, '/', mm + ['/'] + yyyy);
  }

  lemma DigitsHaveNoSlash(s: string)
    requires Text.AllDigits(s)
    ensures '/' !in s
  {
    forall i | 0 <= i < |s|
      ensures s[i] != '/'
    {
      assert Text.IsDigit(s[i]);
    }
  }

  /** The weekday of a day: 0 for Monday up to 6 for Sunday. */
  function Weekday(day: int): (w: int)
    ensures 0 <= w < 7
  {
    (day + 3) % 7
  }

  /** date-fns `startOfWeek(day, { weekStartsOn: 1 })`: the Monday on or before `day`. */
  function StartOfWeek(day: int): (monday: int)
    ensures Weekday(monday) == 0
    ensures monday <= day < monday + 7
    ensures day - monday == Weekday(day)
  {
    day - Weekday(day)
  }

  /** There is only one Monday in the seven days ending on `day`. */
  lemma StartOfWeekUnique(day: int, monday: int)
    requires Weekday(monday) == 0 && monday <= day < monday + 7
    ensures monday == StartOfWeek(day)
  {
  }

  /** Two days fall in the same Monday-started week exactly when their Mondays coincide. */
  lemma {:induction false} SameWeek(a: int, b: int)
    ensures StartOfWeek(a) == StartOfWeek(b) <==> StartOfWeek(a) <= b < StartOfWeek(a) + 7
  {
    if StartOfWeek(a) <= b < StartOfWeek(a) + 7 {
      StartOfWeekUnique(b, StartOfWeek(a));
    }
  }

  lemma CivilEpoch()
    ensures DaysFromCivil(1970, 1, 1) == 0
  {
  }

  lemma LocalEpoch()
    ensures LocalDate(1970, 0, 1) == 0
  {
    assert FullYear(1970) == 1970;
    assert 0 / 12 == 0 && 0 % 12 == 0;
    CivilEpoch();
  }

  lemma ThursdayIsThree()
    ensures Weekday(0) == 3
  {
  }

  /** Day 0 is 1 January 1970, a Thursday. */
  lemma EpochIsThursday()
    ensures LocalDate(1970, 0, 1) == 0 && Weekday(0) == 3
  {
    LocalEpoch();
    ThursdayIsThree();
  }

  /** 5 May 2025, the first day of the sample data, is a Monday. */
  lemma SampleWeekStartsMonday()
    ensures LocalDate(2025, 4, 5) == 20213 && Weekday(20213) == 0
  {
    assert FullYear(2025) == 2025;
    assert 4 / 12 == 0 && 4 % 12 == 4;
    assert DaysFromCivil(2025, 5, 1) == 20209;
    assert MakeDay(2025, 4, 5) == 20213;
  }
}
