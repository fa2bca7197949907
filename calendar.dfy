/** The proleptic Gregorian calendar of Go's `time` package, restricted to
    what the utilities use: UTC dates with a time of day, their
    chronological order, three of time.Format's layouts and ToLastDay. */
module Calendar {
  import opened Numbers

  const NanosPerDay: int := 86_400_000_000_000

  /** Go's isLeap. */
  predicate IsLeap(year: int) {
    year % 4 == 0 && (year % 100 != 0 || year % 400 == 0)
  }

  /** Go's daysIn: the number of days of `month` in `year`. */
  function DaysIn(month: int, year: int): (n: int)
    requires 1 <= month <= 12
    ensures 28 <= n <= 31
    ensures n == 29 <==> month == 2 && IsLeap(year)
  {
    if month == 2 then (if IsLeap(year) then 29 else 28)
    else if month == 4 || month == 6 || month == 9 || month == 11 then 30
    else 31
  }

  /** A UTC instant as its civil fields: year, month, day and the
      nanoseconds since midnight. */
  datatype Time = Time(year: int, month: int, day: int, nanos: int)

  /** The fields name a real day of the calendar and a time within it. */
  predicate Valid(t: Time) {
    1 <= t.month <= 12 && 1 <= t.day <= DaysIn(t.month, t.year) && 0 <= t.nanos < NanosPerDay
  }

  /** A Go time.Time in UTC. */
  type Date = t: Time | Valid(t) witness Time(1, 1, 1, 0)

  /** Midnight on a day of the calendar. */
  predicate Midnight(t: Date) {
    t.nanos == 0
  }

  /** t is strictly earlier than u: `u.Sub(t) > 0` in Go. Valid fields
      order instants by year, then month, then day, then time of day. */
  predicate Before(t: Date, u: Date) {
    if t.year != u.year then t.year < u.year
    else if t.month != u.month then t.month < u.month
    else if t.day != u.day then t.day < u.day
    else t.nanos < u.nanos
  }

  /** Before is a strict total order on dates. */
  lemma {:induction false} BeforeOrder(t: Date, u: Date, v: Date)
    ensures !Before(t, t)
    ensures !(Before(t, u) && Before(u, t))
    ensures t == u || Before(t, u) || Before(u, t)
    ensures Before(t, u) && Before(u, v) ==> Before(t, v)
  {
  }

  // ---------------------------------------------------------------- month arithmetic

  /** The date 24 hours before `t`. */
  function DayBefore(t: Date): (r: Date)
    ensures Before(r, t)
  {
    if t.day > 1 then Time(t.year, t.month, t.day - 1, t.nanos)
    else if t.month > 1 then Time(t.year, t.month - 1, DaysIn(t.month - 1, t.year), t.nanos)
    else Time(t.year - 1, 12, 31, t.nanos)
  }

  /** ToLastDay: the first day of the following month, at midnight, moved
      back by 24 hours; December goes through January 1 of the next year. */
  function ToLastDay(dt: Date): (eom: Date)
    ensures eom.year == dt.year && eom.month == dt.month
    ensures eom.day == DaysIn(dt.month, dt.year) && Midnight(eom)
  {
    var year, month := if dt.month == 12 then dt.year + 1 else dt.year,
                       if dt.month == 12 then 1 else dt.month + 1;
    DayBefore(Time(year, month, 1, 0))
  }

  /** No midnight of dt's month is later than ToLastDay(dt), and the result
      is already the last day of its month. */
  lemma {:induction false} ToLastDayIsLast(dt: Date, u: Date)
    requires u.year == dt.year && u.month == dt.month && Midnight(u)
    ensures !Before(ToLastDay(dt), u)
    ensures ToLastDay(ToLastDay(dt)) == ToLastDay(dt)
  {
  }

  // ---------------------------------------------------------------- time.Format

  /** time.Format(t, "1/2/2006"): month and day without padding, the year
      padded to four digits. */
  function SlashFormat(t: Date): string {
    Decimal(t.month) + "/" + Decimal(t.day) + "/" + SignedPad(t.year, 4)
  }

  /** time.Format(t, "20060102"): the basic calendar-date form of section
      4.1.2.2 of ISO 8601:2004, YYYYMMDD. */
  function BasicFormat(t: Date): string {
    SignedPad(t.year, 4) + PadDigits(t.month, 2) + PadDigits(t.day, 2)
  }

  /** time.Format(t, "2006-01-02"): the extended calendar-date form of
      section 4.1.2.2 of ISO 8601:2004, YYYY-MM-DD. */
  function ExtendedFormat(t: Date): string {
    SignedPad(t.year, 4) + "-" + PadDigits(t.month, 2) + "-" + PadDigits(t.day, 2)
  }

  /** For a year of four digits, the basic form is eight digits, and the
      extended form is the basic one with hyphens after the year and the month. */
  lemma {:induction false} FormatShapes(t: Date)
    requires 0 <= t.year <= 9999
    ensures |BasicFormat(t)| == 8 && AllDigits(BasicFormat(t))
    ensures var b, e := BasicFormat(t), ExtendedFormat(t);
      e == b[..4] + "-" + b[4..6] + "-" + b[6..]
  {
    PadDigitsWidth(t.year, 4);
    PadDigitsWidth(t.month, 2);
    PadDigitsWidth(t.day, 2);
    AllDigitsAppend(PadDigits(t.year, 4), PadDigits(t.month, 2));
    AllDigitsAppend(PadDigits(t.year, 4) + PadDigits(t.month, 2), PadDigits(t.day, 2));
  }
}
