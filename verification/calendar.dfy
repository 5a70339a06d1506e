/** The java.time values the core reads. A LocalDate is its epoch day (days since
    1970-01-01, as LocalDate.toEpochDay gives it), so isBefore/isAfter are integer
    comparisons and plusDays is addition. */
module Calendar {

  type Date = int

  /** A LocalDateTime: its date plus the nanoseconds elapsed since midnight. */
  datatype DateTime = DateTime(date: Date, nanoOfDay: int) {
    /** LocalDateTime.toLocalDate */
    function ToLocalDate(): Date {
      date
    }
  }

  datatype YearMonth = YearMonth(year: int, month: int)

  /** Proleptic Gregorian year, month and day of an epoch day (the civil-from-days
      algorithm; every division below has a positive divisor, so Dafny's Euclidean
      division is floor division as the algorithm requires). */
  function CivilFromDays(d: Date): (int, int, int)
  {
    var z := d + 719468;
    var era := z / 146097;
    var doe := z % 146097;
    var yoe := (doe - doe / 1460 + doe / 36524 - doe / 146096) / 365;
    var y := yoe + era * 400;
    var doy := doe - (365 * yoe + yoe / 4 - yoe / 100);
    var mp := (5 * doy + 2) / 153;
    var day := doy - (153 * mp + 2) / 5 + 1;
    var month := if mp < 10 then mp + 3 else mp - 9;
    (if month <= 2 then y + 1 else y, month, day)
  }

  /** LocalDate.getDayOfMonth */
  function DayOfMonth(d: Date): int {
    CivilFromDays(d).2
  }

  /** 1970-01-05 and 1970-01-06, the two sides of the on-time payment cut-off. */
  lemma CivilFromDaysSamples()
    ensures CivilFromDays(4) == (1970, 1, 5)
    ensures CivilFromDays(5) == (1970, 1, 6)
  {
    // epoch day 4: era 4, day of era 135084, year of era 369, day of year 310
    assert 719472 / 146097 == 4 && 719472 % 146097 == 135084;
    assert 135084 / 1460 == 92 && 135084 / 36524 == 3 && 135084 / 146096 == 0;
    assert (135084 - 92 + 3 - 0) / 365 == 369;
    assert 369 / 4 == 92 && 369 / 100 == 3;
    assert 135084 - (365 * 369 + 92 - 3) == 310;
    assert (5 * 310 + 2) / 153 == 10 && (153 * 10 + 2) / 5 == 306;
    // epoch day 5: one more day of the same year
    assert 719473 / 146097 == 4 && 719473 % 146097 == 135085;
    assert 135085 / 1460 == 92 && 135085 / 36524 == 3 && 135085 / 146096 == 0;
    assert (135085 - 92 + 3 - 0) / 365 == 369;
    assert 135085 - (365 * 369 + 92 - 3) == 311;
    assert (5 * 311 + 2) / 153 == 10;
  }
}
