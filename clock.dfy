/** The wall-clock reading that feeds submission-id derivation, passed in as a
    value instead of being read from the system clock, and its rendering as
    an hour bucket (`strftime("%Y%m%d%H")`). */
module Clock {
  import opened Text

  /** A Python `datetime` (naive, local time). */
  datatype Timestamp = Timestamp(
    year: nat, month: nat, day: nat,
    hour: nat, minute: nat, second: nat, microsecond: nat)

  predicate IsLeapYear(y: nat) {
    (y % 4 == 0 && y % 100 != 0) || y % 400 == 0
  }

  function DaysInMonth(y: nat, m: nat): nat
    requires 1 <= m <= 12
  {
    if m == 2 then (if IsLeapYear(y) then 29 else 28)
    else if m == 4 || m == 6 || m == 9 || m == 11 then 30
    else 31
  }

  /** The values `datetime` admits: years 1 through 9999 and calendar dates. */
  predicate Valid(t: Timestamp) {
    && 1 <= t.year <= 9999
    && 1 <= t.month <= 12
    && 1 <= t.day <= DaysInMonth(t.year, t.month)
    && t.hour < 24 && t.minute < 60 && t.second < 60 && t.microsecond < 1000000
  }

  /** Both readings fall in the same calendar hour. */
  predicate SameHour(t: Timestamp, u: Timestamp) {
    t.year == u.year && t.month == u.month && t.day == u.day && t.hour == u.hour
  }

  /** `strftime("%Y%m%d%H")`: four digits of year, then two each of month,
      day and hour. Reading the fixed-width slices back gives the fields. */
  function HourBucket(t: Timestamp): (r: string)
    ensures |r| == 10 && AllDigits(r)
    ensures Valid(t) ==>
      && DecimalValue(r[..4]) == t.year
      && DecimalValue(r[4..6]) == t.month
      && DecimalValue(r[6..8]) == t.day
      && DecimalValue(r[8..]) == t.hour
  {
    var y, m, d, h := FixedDigits(t.year, 4), FixedDigits(t.month, 2), FixedDigits(t.day, 2), FixedDigits(t.hour, 2);
    var r := y + m + d + h;
    assert r[..4] == y && r[4..6] == m && r[6..8] == d && r[8..] == h;
    r
  }

  /** The bucket tells hours apart exactly: two valid readings share a bucket
      if and only if they fall in the same calendar hour. */
  lemma HourBucketExact(t: Timestamp, u: Timestamp)
    requires Valid(t) && Valid(u)
    ensures HourBucket(t) == HourBucket(u) <==> SameHour(t, u)
  {
    if HourBucket(t) == HourBucket(u) {
      var b := HourBucket(t);
      assert DecimalValue(b[..4]) == t.year == u.year;
      assert DecimalValue(b[4..6]) == t.month == u.month;
      assert DecimalValue(b[6..8]) == t.day == u.day;
      assert DecimalValue(b[8..]) == t.hour == u.hour;
    }
  }

  /** 2024-01-01 23:59:59 and 2024-01-02 00:00:00 are an hour boundary apart
      and get different buckets. */
  lemma HourBoundaryExample()
    ensures HourBucket(Timestamp(2024, 1, 1, 23, 59, 59, 0)) != HourBucket(Timestamp(2024, 1, 2, 0, 0, 0, 0))
  {
    HourBucketExact(Timestamp(2024, 1, 1, 23, 59, 59, 0), Timestamp(2024, 1, 2, 0, 0, 0, 0));
  }
}
