/** Wall-clock values, the IST printer, and the day bounds of the date filters. */
module Dates {
  import opened Outcomes
  import opened Units

  const IST_OFFSET := 5 * HOUR + 30 * MINUTE

  // ---- The proleptic Gregorian calendar ------------------------------------------------

  datatype Date = Date(year: int, month: int, day: int)

  predicate IsLeap(y: int) {
    y % 4 == 0 && (y % 100 != 0 || y % 400 == 0)
  }

  function DaysInMonth(y: int, m: int): int {
    if m == 2 then (if IsLeap(y) then 29 else 28)
    else if m == 4 || m == 6 || m == 9 || m == 11 then 30
    else 31
  }

  predicate ValidDate(d: Date) {
    d.year >= 1 && 1 <= d.month <= 12 && 1 <= d.day <= DaysInMonth(d.year, d.month)
  }

  function DaysBeforeMonth(y: int, m: int): int
    decreases m
  {
    if m <= 1 then 0 else DaysBeforeMonth(y, m - 1) + DaysInMonth(y, m - 1)
  }

  function DaysBeforeYear(y: int): int
    decreases y
  {
    if y <= 1 then 0 else DaysBeforeYear(y - 1) + DaysBeforeMonth(y - 1, 13)
  }

  /** Day number, 1 January of year 1 being day 1. */
  function Ordinal(d: Date): int {
    DaysBeforeYear(d.year) + DaysBeforeMonth(d.year, d.month) + d.day
  }

  function NextDay(d: Date): Date {
    if d.day < DaysInMonth(d.year, d.month) then d.(day := d.day + 1)
    else if d.month < 12 then Date(d.year, d.month + 1, 1)
    else Date(d.year + 1, 1, 1)
  }

  lemma NextDayOrdinal(d: Date)
    requires ValidDate(d)
    ensures ValidDate(NextDay(d)) && Ordinal(NextDay(d)) == Ordinal(d) + 1
  {
    assert d.month == 12 ==> DaysBeforeMonth(d.year, 13) == DaysBeforeMonth(d.year, 12) + 31;
  }

  /** The date with a given day number. */
  function FromOrdinal(n: int): (d: Date)
    requires n >= 1
    ensures ValidDate(d) && Ordinal(d) == n
  {
    if n == 1 then Date(1, 1, 1)
    else
      NextDayOrdinal(FromOrdinal(n - 1));
      NextDay(FromOrdinal(n - 1))
  }

  predicate DateBefore(a: Date, b: Date) {
    || a.year < b.year
    || (a.year == b.year && (a.month < b.month || (a.month == b.month && a.day < b.day)))
  }

  lemma DivSteps(y: int)
    ensures y / 4 == (y - 1) / 4 + if y % 4 == 0 then 1 else 0
    ensures y / 100 == (y - 1) / 100 + if y % 100 == 0 then 1 else 0
    ensures y / 400 == (y - 1) / 400 + if y % 400 == 0 then 1 else 0
  {
  }

  lemma LeapNested(y: int)
    ensures y % 400 == 0 ==> y % 100 == 0
    ensures y % 100 == 0 ==> y % 4 == 0
  {
  }

  lemma YearLength(y: int)
    ensures DaysBeforeMonth(y, 13) == 365 + if y % 4 == 0 && (y % 100 != 0 || y % 400 == 0) then 1 else 0
  {
    MonthsAre(y, 13);
  }

  /** The days before each month, as the standard library tabulates them. */
  lemma MonthsAre(y: int, m: int)
    requires 1 <= m <= 13
    ensures DaysBeforeMonth(y, m) ==
            [0, 31, 59, 90, 120, 151, 181, 212, 243, 273, 304, 334, 365][m - 1]
            + if m > 2 && y % 4 == 0 && (y % 100 != 0 || y % 400 == 0) then 1 else 0
    decreases m
  {
    if m > 1 {
      MonthsAre(y, m - 1);
    }
  }

  lemma {:induction false} YearsAre(y: int)
    requires y >= 1
    ensures DaysBeforeYear(y) == 365 * (y - 1) + (y - 1) / 4 - (y - 1) / 100 + (y - 1) / 400
  {
    if y > 1 {
      YearsAre(y - 1);
      YearLength(y - 1);
      DivSteps(y - 1);
      LeapNested(y - 1);
    }
  }

  /** The day number in closed form: 97 leap days in 400 years. */
  lemma DayNumberIs(d: Date)
    requires ValidDate(d)
    ensures Ordinal(d) ==
            365 * (d.year - 1) + (d.year - 1) / 4 - (d.year - 1) / 100 + (d.year - 1) / 400
            + [0, 31, 59, 90, 120, 151, 181, 212, 243, 273, 304, 334][d.month - 1]
            + (if d.month > 2 && d.year % 4 == 0 && (d.year % 100 != 0 || d.year % 400 == 0) then 1 else 0)
            + d.day
  {
    YearsAre(d.year);
    MonthsAre(d.year, d.month);
  }

  lemma {:induction false} MonthsGrow(y: int, m: int, n: int)
    requires 1 <= m < n <= 13
    ensures DaysBeforeMonth(y, m) + DaysInMonth(y, m) <= DaysBeforeMonth(y, n)
    decreases n
  {
    if m < n - 1 {
      MonthsGrow(y, m, n - 1);
    }
  }

  lemma {:induction false} YearsGrow(y: int, z: int)
    requires 1 <= y < z
    ensures DaysBeforeYear(y) + DaysBeforeMonth(y, 13) <= DaysBeforeYear(z)
    decreases z
  {
    if y < z - 1 {
      YearsGrow(y, z - 1);
      MonthsGrow(z - 1, 1, 13);
    }
  }

  lemma EarlierOrdinal(a: Date, b: Date)
    requires ValidDate(a) && ValidDate(b) && DateBefore(a, b)
    ensures Ordinal(a) < Ordinal(b)
  {
    if a.year < b.year {
      YearsGrow(a.year, b.year);
      MonthsGrow(a.year, a.month, 13);
      if b.month > 1 {
        MonthsGrow(b.year, 1, b.month);
      }
    } else if a.month < b.month {
      MonthsGrow(a.year, a.month, b.month);
    }
  }

  /** Day numbers order and identify dates. */
  lemma OrdinalOrder(a: Date, b: Date)
    requires ValidDate(a) && ValidDate(b)
    ensures Ordinal(a) < Ordinal(b) <==> DateBefore(a, b)
    ensures Ordinal(a) == Ordinal(b) <==> a == b
  {
    if DateBefore(a, b) {
      EarlierOrdinal(a, b);
    } else if DateBefore(b, a) {
      EarlierOrdinal(b, a);
    }
  }

  // ---- Wall-clock values ------------------------------------------------------------------

  datatype Wall = Wall(date: Date, hour: int, minute: int, second: int, micro: int)

  predicate ValidWall(w: Wall) {
    && ValidDate(w.date) && w.date.year <= 9999
    && 0 <= w.hour < 24 && 0 <= w.minute < 60 && 0 <= w.second < 60 && 0 <= w.micro < SECOND
  }

  function TimeOfDay(w: Wall): int {
    w.hour * HOUR + w.minute * MINUTE + w.second * SECOND + w.micro
  }

  /** Microseconds on the wall clock's own time line. */
  function Micros(w: Wall): int {
    Ordinal(w.date) * DAY + TimeOfDay(w)
  }

  /** The time line in plain numbers: days, hours, minutes, seconds, microseconds. */
  lemma MicrosAre(w: Wall)
    ensures Micros(w) == (((Ordinal(w.date) * 24 + w.hour) * 60 + w.minute) * 60 + w.second) * 1000000 + w.micro
  {
  }

  datatype Error = Overflow | BadDay

  /** Hours, minutes, seconds and microseconds by successive division. */
  function AtTime(d: Date, t: int): Wall {
    var afterHours := t % HOUR;
    var afterMinutes := afterHours % MINUTE;
    Wall(d, t / HOUR, afterHours / MINUTE, afterMinutes / SECOND, afterMinutes % SECOND)
  }

  /** The wall clock at a point of its time line; years outside 1 to 9999 are an error. */
  function AtMicros(total: int): Result<Wall, Error> {
    var n := total / DAY;
    if n < 1 || FromOrdinal(n).year > 9999 then Err(Overflow)
    else Ok(AtTime(FromOrdinal(n), total % DAY))
  }

  /** Adding a duration. */
  function Add(w: Wall, delta: int): Result<Wall, Error> {
    AtMicros(Micros(w) + delta)
  }

  lemma AtTimeExact(d: Date, t: int)
    requires 0 <= t < DAY
    ensures var w := AtTime(d, t);
            && 0 <= w.hour < 24 && 0 <= w.minute < 60 && 0 <= w.second < 60 && 0 <= w.micro < SECOND
            && TimeOfDay(w) == t
  {
  }

  lemma DayAndRest(total: int)
    ensures total == total / DAY * DAY + total % DAY && 0 <= total % DAY < DAY
  {
  }

  /** Days first, then the time within the day. */
  lemma DayThenTime(m: int, t: int, n: int, u: int)
    requires 0 <= t < DAY && 0 <= u < DAY
    ensures m * DAY + t < n * DAY + u <==> m < n || (m == n && t < u)
    ensures (m * DAY + t) / DAY == m
  {
  }

  /** A valid wall clock standing at a point of its time line. */
  predicate StandsAt(w: Wall, total: int) {
    ValidWall(w) && Micros(w) == total
  }

  lemma DayAtTime(n: int, t: int, total: int)
    requires n >= 1 && FromOrdinal(n).year <= 9999 && 0 <= t < DAY && total == n * DAY + t
    ensures StandsAt(AtTime(FromOrdinal(n), t), total)
  {
    AtTimeExact(FromOrdinal(n), t);
  }

  lemma AtMicrosExact(total: int)
    requires AtMicros(total).Ok?
    ensures StandsAt(AtMicros(total).value, total)
  {
    var n, t := total / DAY, total % DAY;
    DayAndRest(total);
    DayAtTime(n, t, total);
    assert AtMicros(total).value == AtTime(FromOrdinal(n), t);
  }

  /** From 0001-01-01 to the end of 9999-12-31, day numbers 1 to 3652059. */
  predicate InCalendar(total: int) {
    24 * 3600 * 1000000 <= total < 3652060 * 24 * 3600 * 1000000
  }

  lemma DayWithin(total: int)
    ensures 1 <= total / DAY <= 3652059 <==> InCalendar(total)
  {
    assert DAY == 86400000000;
  }

  lemma LastDayNumber(last: Date)
    requires last.year == 9999 && last.month == 12 && last.day == 31
    ensures Ordinal(last) == 3652059
  {
    DayNumberIs(last);
  }

  lemma YearEnds(d: Date, last: Date)
    requires ValidDate(d) && last.year == 9999 && last.month == 12 && last.day == 31
    ensures d.year > 9999 <==> Ordinal(d) > 3652059
  {
    LastDayNumber(last);
    AfterLast(d, last);
    OrdinalOrder(last, d);
  }

  lemma AfterLast(d: Date, last: Date)
    requires ValidDate(d) && last.year == 9999 && last.month == 12 && last.day == 31
    ensures ValidDate(last) && (d.year > 9999 <==> DateBefore(last, d))
  {
  }

  /** A point of the time line has a wall clock exactly within the calendar. */
  lemma AtMicrosOkIff(total: int)
    ensures AtMicros(total).Ok? <==> InCalendar(total)
  {
    DayWithin(total);
    if total / DAY >= 1 {
      YearEnds(FromOrdinal(total / DAY), Date(9999, 12, 31));
    }
  }

  lemma AddOkIff(w: Wall, delta: int)
    ensures Add(w, delta).Ok? <==> InCalendar(Micros(w) + delta)
  {
    AtMicrosOkIff(Micros(w) + delta);
  }

  /** The conversion fails exactly when the value's UTC or IST reading leaves the calendar. */
  lemma ToIstFailsIff(w: Wall, offset: int)
    ensures ToIst(Aware(w, offset)).Err? <==>
            !(InCalendar(Micros(w) - offset) && InCalendar(Micros(w) - offset + 330 * 60 * 1000000))
  {
    AddTwiceOkIff(w, -offset, IST_OFFSET);
    assert IST_OFFSET == 330 * 60 * 1000000;
  }

  lemma AddTwiceOkIff(w: Wall, first: int, second: int)
    ensures Add(w, first).Ok? && Add(Add(w, first).value, second).Ok? <==>
            InCalendar(Micros(w) + first) && InCalendar(Micros(w) + first + second)
  {
    AddOkIff(w, first);
    if Add(w, first).Ok? {
      AddMoves(w, first);
      AddOkIff(Add(w, first).value, second);
    }
  }

  lemma AddMoves(w: Wall, delta: int)
    requires Add(w, delta).Ok?
    ensures ValidWall(Add(w, delta).value) && Micros(Add(w, delta).value) == Micros(w) + delta
  {
    AtMicrosExact(Micros(w) + delta);
  }

  // ---- to_ist and to_ist_iso ------------------------------------------------------------

  /** A naive value, or an aware one with its offset from UTC in microseconds. */
  datatype Stamp = Naive(wall: Wall) | Aware(wall: Wall, offset: int)

  function ToIst(value: Stamp): Result<Wall, Error> {
    match value
    case Naive(w) => Ok(w)
    case Aware(w, offset) =>
      match Add(w, -offset)
      case Err(e) => Err(e)
      case Ok(utc) => Add(utc, IST_OFFSET)
  }

  lemma ShiftedTwice(w: Wall, first: int, second: int)
    requires Add(w, first).Ok? && Add(Add(w, first).value, second).Ok?
    ensures ValidWall(Add(Add(w, first).value, second).value)
    ensures Micros(Add(Add(w, first).value, second).value) == Micros(w) + first + second
  {
    AddMoves(w, first);
    AddMoves(Add(w, first).value, second);
  }

  /** An aware value keeps its instant: the IST reading less 330 minutes and the original
      less its own offset are the same microsecond, however many days the shift crosses. */
  lemma ToIstKeepsInstant(value: Stamp)
    requires value.Aware? && ToIst(value).Ok?
    ensures ValidWall(ToIst(value).value)
    ensures Micros(ToIst(value).value) - 330 * 60 * 1000000 == Micros(value.wall) - value.offset
  {
    ShiftedTwice(value.wall, -value.offset, IST_OFFSET);
  }

  /** Zero-padded to `width` digits. */
  function Pad(n: nat, width: nat): (s: string)
    ensures |s| == width
  {
    if width == 0 then "" else Pad(n / 10, width - 1) + [Digit(n % 10)]
  }

  /** The required interpreter pads `%Y` to four digits on every platform. */
  function RenderDay(d: Date): string
    requires 0 <= d.year && 0 <= d.month && 0 <= d.day
  {
    Pad(d.year, 4) + "-" + Pad(d.month, 2) + "-" + Pad(d.day, 2)
  }

  function RenderTime(w: Wall): string
    requires ValidWall(w)
  {
    Pad(w.hour, 2) + ":" + Pad(w.minute, 2) + ":" + Pad(w.second, 2) + "." + Pad(w.micro / 1000, 3)
  }

  function Render(w: Wall): string
    requires ValidWall(w)
  {
    RenderDay(w.date) + "T" + RenderTime(w) + "+05:30"
  }

  function ToIstIso(value: Option<Stamp>): Result<Option<string>, Error>
    requires value.Some? ==> ValidWall(value.value.wall)
  {
    match value
    case None => Ok(None)
    case Some(stamp) =>
      match ToIst(stamp)
      case Err(e) => Err(e)
      case Ok(w) =>
        IstInstant(stamp);
        Ok(Some(Render(w)))
  }

  /** The instant a stamp denotes, on the UTC time line; naive values are IST. */
  function Instant(value: Stamp): int {
    match value
    case Naive(w) => Micros(w) - IST_OFFSET
    case Aware(w, offset) => Micros(w) - offset
  }

  lemma IstInstant(value: Stamp)
    requires ValidWall(value.wall) && ToIst(value).Ok?
    ensures ValidWall(ToIst(value).value) && Micros(ToIst(value).value) - IST_OFFSET == Instant(value)
  {
    if value.Aware? {
      ToIstKeepsInstant(value);
    }
  }

  // ---- Reading digits back ---------------------------------------------------------------

  function Pow10(n: nat): (p: nat)
    ensures p > 0
  {
    if n == 0 then 1 else 10 * Pow10(n - 1)
  }

  lemma {:induction false} PadValue(n: nat, width: nat)
    requires n < Pow10(width)
    ensures Value(Pad(n, width)) == n
    ensures forall i :: 0 <= i < width ==> IsDigit(Pad(n, width)[i])
  {
    if width > 0 {
      PadValue(n / 10, width - 1);
      var s := Pad(n, width);
      assert s[..|s| - 1] == Pad(n / 10, width - 1);
    }
  }

  lemma LastDigit(v: nat, d: int)
    requires 0 <= d < 10
    ensures (v * 10 + d) / 10 == v && (v * 10 + d) % 10 == d
  {
  }

  lemma PadLast(v: nat, d: int, n: nat)
    requires v < Pow10(n) && 0 <= d < 10
    ensures v * 10 + d < Pow10(n + 1) && Pad(v * 10 + d, n + 1) == Pad(v, n) + [Digit(d)]
  {
    LastDigit(v, d);
  }

  lemma {:induction false} ValuePad(s: string)
    requires forall i :: 0 <= i < |s| ==> IsDigit(s[i])
    ensures 0 <= Value(s) < Pow10(|s|)
    ensures Pad(Value(s), |s|) == s
  {
    if s != "" {
      var n := |s| - 1;
      var v, d := Value(s[..n]), DigitValue(s[n]);
      ValuePad(s[..n]);
      assert IsDigit(s[n]);
      PadLast(v, d, n);
      assert s == s[..n] + [s[n]];
    }
  }

  /** Reads `YYYY-MM-DDTHH:MM:SS.sss+05:30` by position. */
  function ParseIso(s: string): Wall
    requires |s| == 29
  {
    Wall(Date(Value(s[0..4]), Value(s[5..7]), Value(s[8..10])),
         Value(s[11..13]), Value(s[14..16]), Value(s[17..19]), Value(s[20..23]) * 1000)
  }

  function TruncateToMillis(w: Wall): Wall {
    w.(micro := w.micro / 1000 * 1000)
  }

  lemma Pow10Small()
    ensures Pow10(2) == 100 && Pow10(3) == 1000 && Pow10(4) == 10000
  {
    assert Pow10(0) == 1 && Pow10(1) == 10;
  }

  lemma DayParts(d: Date)
    requires ValidDate(d) && d.year <= 9999
    ensures var s := RenderDay(d);
            |s| == 10 && s[0..4] == Pad(d.year, 4) && s[5..7] == Pad(d.month, 2) && s[8..10] == Pad(d.day, 2)
  {
  }

  lemma TimeFields(w: Wall)
    requires ValidWall(w)
    ensures var s := RenderTime(w);
            && |s| == 12 && s[0..2] == Pad(w.hour, 2) && s[3..5] == Pad(w.minute, 2)
            && s[6..8] == Pad(w.second, 2) && s[9..12] == Pad(w.micro / 1000, 3)
  {
  }

  lemma Pieces(day: string, time: string)
    requires |day| == 10 && |time| == 12
    ensures var s := day + "T" + time + "+05:30";
            && |s| == 29 && s[..10] == day && s[0..4] == day[0..4] && s[5..7] == day[5..7] && s[8..10] == day[8..10]
            && s[11..13] == time[0..2] && s[14..16] == time[3..5] && s[17..19] == time[6..8] && s[20..23] == time[9..12]
  {
  }

  lemma RenderParts(w: Wall)
    requires ValidWall(w)
    ensures var s := Render(w);
            && |s| == 29
            && s[0..4] == Pad(w.date.year, 4) && s[5..7] == Pad(w.date.month, 2) && s[8..10] == Pad(w.date.day, 2)
            && s[11..13] == Pad(w.hour, 2) && s[14..16] == Pad(w.minute, 2) && s[17..19] == Pad(w.second, 2)
            && s[20..23] == Pad(w.micro / 1000, 3)
            && s[..10] == RenderDay(w.date)
  {
    DayParts(w.date);
    TimeFields(w);
    Pieces(RenderDay(w.date), RenderTime(w));
  }

  /** Parsing the output gives the value truncated to milliseconds. */
  lemma ParseRendered(w: Wall)
    requires ValidWall(w)
    ensures |Render(w)| == 29 && ParseIso(Render(w)) == TruncateToMillis(w)
  {
    RenderParts(w);
    Pow10Small();
    PadValue(w.date.year, 4);
    PadValue(w.date.month, 2);
    PadValue(w.date.day, 2);
    PadValue(w.hour, 2);
    PadValue(w.minute, 2);
    PadValue(w.second, 2);
    PadValue(w.micro / 1000, 3);
  }

  // ---- String order and time order ---------------------------------------------------------

  /** Lexicographic order of strings. */
  predicate Less(a: string, b: string) {
    b != "" && (a == "" || a[0] < b[0] || (a[0] == b[0] && Less(a[1..], b[1..])))
  }

  lemma {:induction false} LessAppend(x: string, u: string, y: string, v: string)
    requires |x| == |y|
    ensures Less(x + u, y + v) <==> Less(x, y) || (x == y && Less(u, v))
  {
    if x == "" {
      assert x + u == u && y + v == v;
    } else {
      LessAppend(x[1..], u, y[1..], v);
      assert (x + u)[1..] == x[1..] + u && (y + v)[1..] == y[1..] + v;
      assert x == [x[0]] + x[1..] && y == [y[0]] + y[1..];
    }
  }

  lemma {:induction false} LessIrreflexive(s: string)
    ensures !Less(s, s)
  {
    if s != "" {
      LessIrreflexive(s[1..]);
    }
  }

  lemma PadIdentifies(a: nat, b: nat, width: nat)
    requires a < Pow10(width) && b < Pow10(width)
    ensures Pad(a, width) == Pad(b, width) <==> a == b
  {
    PadValue(a, width);
    PadValue(b, width);
  }

  lemma DigitOrder(x: int, y: int)
    requires 0 <= x < 10 && 0 <= y < 10
    ensures Less([Digit(x)], [Digit(y)]) <==> x < y
  {
  }

  lemma LastDigitOrder(a: nat, b: nat)
    ensures a < b <==> a / 10 < b / 10 || (a / 10 == b / 10 && a % 10 < b % 10)
  {
  }

  lemma {:induction false} PadOrder(a: nat, b: nat, width: nat)
    requires a < Pow10(width) && b < Pow10(width)
    ensures Less(Pad(a, width), Pad(b, width)) <==> a < b
    ensures Pad(a, width) == Pad(b, width) <==> a == b
  {
    PadIdentifies(a, b, width);
    if width > 0 {
      PadOrder(a / 10, b / 10, width - 1);
      LessAppend(Pad(a / 10, width - 1), [Digit(a % 10)], Pad(b / 10, width - 1), [Digit(b % 10)]);
      DigitOrder(a % 10, b % 10);
      LastDigitOrder(a, b);
    }
  }

  /** A field, a separator and the rest compare like the field first and the rest after. */
  lemma FieldOrder(a: nat, b: nat, width: nat, separator: string, u: string, v: string)
    requires a < Pow10(width) && b < Pow10(width)
    ensures Less(Pad(a, width) + separator + u, Pad(b, width) + separator + v) <==> a < b || (a == b && Less(u, v))
  {
    PadOrder(a, b, width);
    LessIrreflexive(separator);
    assert (Pad(a, width) + separator)[..width] == Pad(a, width);
    assert (Pad(b, width) + separator)[..width] == Pad(b, width);
    LessAppend(Pad(a, width), separator, Pad(b, width), separator);
    LessAppend(Pad(a, width) + separator, u, Pad(b, width) + separator, v);
  }

  /** The time of day at millisecond precision. */
  function Millis(w: Wall): int {
    ((w.hour * 60 + w.minute) * 60 + w.second) * 1000 + w.micro / 1000
  }

  function RenderSeconds(w: Wall): string
    requires ValidWall(w)
  {
    Pad(w.second, 2) + "." + Pad(w.micro / 1000, 3) + "+05:30"
  }

  lemma SecondsOrder(a: Wall, b: Wall)
    requires ValidWall(a) && ValidWall(b)
    ensures Less(RenderSeconds(a), RenderSeconds(b)) <==>
            a.second < b.second || (a.second == b.second && a.micro / 1000 < b.micro / 1000)
  {
    Pow10Small();
    var tail := "+05:30";
    LessIrreflexive(tail);
    var u, v := Pad(a.micro / 1000, 3) + "" + tail, Pad(b.micro / 1000, 3) + "" + tail;
    FieldOrder(a.micro / 1000, b.micro / 1000, 3, "", tail, tail);
    FieldOrder(a.second, b.second, 2, ".", u, v);
    assert RenderSeconds(a) == Pad(a.second, 2) + "." + u;
    assert RenderSeconds(b) == Pad(b.second, 2) + "." + v;
  }

  function RenderMinutes(w: Wall): string
    requires ValidWall(w)
  {
    Pad(w.minute, 2) + ":" + RenderSeconds(w)
  }

  lemma MinutesOrder(a: Wall, b: Wall)
    requires ValidWall(a) && ValidWall(b)
    ensures Less(RenderMinutes(a), RenderMinutes(b)) <==>
            a.minute < b.minute || (a.minute == b.minute &&
              (a.second < b.second || (a.second == b.second && a.micro / 1000 < b.micro / 1000)))
  {
    Pow10Small();
    SecondsOrder(a, b);
    FieldOrder(a.minute, b.minute, 2, ":", RenderSeconds(a), RenderSeconds(b));
  }

  lemma TimeParts(w: Wall)
    requires ValidWall(w)
    ensures RenderTime(w) + "+05:30" == Pad(w.hour, 2) + ":" + RenderMinutes(w)
  {
  }

  lemma TimeOrder(a: Wall, b: Wall)
    requires ValidWall(a) && ValidWall(b)
    ensures Less(RenderTime(a) + "+05:30", RenderTime(b) + "+05:30") <==> Millis(a) < Millis(b)
  {
    Pow10Small();
    MinutesOrder(a, b);
    FieldOrder(a.hour, b.hour, 2, ":", RenderMinutes(a), RenderMinutes(b));
    TimeParts(a);
    TimeParts(b);
    MillisLexicographic(a, b);
  }

  lemma MillisLexicographic(a: Wall, b: Wall)
    requires ValidWall(a) && ValidWall(b)
    ensures Millis(a) < Millis(b) <==>
            a.hour < b.hour || (a.hour == b.hour && (a.minute < b.minute || (a.minute == b.minute &&
              (a.second < b.second || (a.second == b.second && a.micro / 1000 < b.micro / 1000)))))
  {
  }

  lemma DayOrder(a: Date, b: Date, u: string, v: string)
    requires ValidDate(a) && ValidDate(b) && a.year <= 9999 && b.year <= 9999
    ensures Less(RenderDay(a) + "T" + u, RenderDay(b) + "T" + v) <==> DateBefore(a, b) || (a == b && Less(u, v))
  {
    RenderedDayOrder(a, b);
    if RenderDay(a) == RenderDay(b) {
      SameDayFields(a, b);
    }
    LessAppend(RenderDay(a), "T" + u, RenderDay(b), "T" + v);
    LessAppend("T", u, "T", v);
    LessIrreflexive("T");
    assert RenderDay(a) + "T" + u == RenderDay(a) + ("T" + u);
    assert RenderDay(b) + "T" + v == RenderDay(b) + ("T" + v);
  }

  lemma TruncatedMicros(w: Wall)
    requires ValidWall(w)
    ensures Micros(TruncateToMillis(w)) == Ordinal(w.date) * DAY + Millis(w) * 1000
    ensures 0 <= Millis(w) * 1000 < DAY
  {
  }

  lemma TruncatedOrder(a: Wall, b: Wall)
    requires ValidWall(a) && ValidWall(b)
    ensures Micros(TruncateToMillis(a)) < Micros(TruncateToMillis(b)) <==>
            DateBefore(a.date, b.date) || (a.date == b.date && Millis(a) < Millis(b))
  {
    OrdinalOrder(a.date, b.date);
    TruncatedMicros(a);
    TruncatedMicros(b);
    DayThenTime(Ordinal(a.date), Millis(a) * 1000, Ordinal(b.date), Millis(b) * 1000);
  }

  /** String order of the printed stamps is time order at
      millisecond precision, and equal strings are equal milliseconds. */
  lemma StringOrderIsTimeOrder(a: Wall, b: Wall)
    requires ValidWall(a) && ValidWall(b)
    ensures Less(Render(a), Render(b)) <==> Micros(TruncateToMillis(a)) < Micros(TruncateToMillis(b))
    ensures Render(a) == Render(b) <==> TruncateToMillis(a) == TruncateToMillis(b)
  {
    var u, v := RenderTime(a) + "+05:30", RenderTime(b) + "+05:30";
    assert Render(a) == RenderDay(a.date) + "T" + u;
    assert Render(b) == RenderDay(b.date) + "T" + v;
    DayOrder(a.date, b.date, u, v);
    TimeOrder(a, b);
    TruncatedOrder(a, b);
    SameRender(a, b);
  }

  lemma SameRender(a: Wall, b: Wall)
    requires ValidWall(a) && ValidWall(b)
    ensures Render(a) == Render(b) <==> TruncateToMillis(a) == TruncateToMillis(b)
  {
    ParseRendered(a);
    ParseRendered(b);
    if TruncateToMillis(a) == TruncateToMillis(b) {
      assert a.micro / 1000 == b.micro / 1000;
    }
  }

  lemma FloorToThousand(k: int, r: int)
    requires 0 <= r < 1000
    ensures (k * 1000 + r) / 1000 * 1000 == k * 1000
  {
  }

  lemma TruncatedByThousand(w: Wall)
    requires ValidWall(w)
    ensures Micros(TruncateToMillis(w)) == Micros(w) / 1000 * 1000
  {
    TruncatedMicros(w);
    MicrosAndRest(w);
    FloorToThousand(Ordinal(w.date) * (DAY / 1000) + Millis(w), w.micro % 1000);
  }

  lemma MicrosAndRest(w: Wall)
    ensures Micros(w) == (Ordinal(w.date) * (DAY / 1000) + Millis(w)) * 1000 + w.micro % 1000
  {
    assert w.micro == w.micro / 1000 * 1000 + w.micro % 1000;
  }

  /** The truncated IST reading stands for the instant truncated to milliseconds. */
  lemma TruncatedInstant(value: Stamp)
    requires ValidWall(value.wall) && ToIst(value).Ok?
    ensures ValidWall(ToIst(value).value)
    ensures Micros(TruncateToMillis(ToIst(value).value)) - IST_OFFSET == Instant(value) / 1000 * 1000
  {
    IstInstant(value);
    var m := Micros(ToIst(value).value);
    TruncatedByThousand(ToIst(value).value);
    WholeMillisOffset(m);
  }

  lemma ThousandsOrder(x: int, y: int)
    ensures x / 1000 * 1000 < y / 1000 * 1000 <==> x / 1000 < y / 1000
  {
  }

  /** Whatever offsets two stamps carry, their printed forms order as their
      instants do, to the millisecond, and parse back to those instants. */
  lemma PrintedOrderIsInstantOrder(a: Stamp, b: Stamp)
    requires ValidWall(a.wall) && ToIst(a).Ok?
    requires ValidWall(b.wall) && ToIst(b).Ok?
    ensures ToIstIso(Some(a)).Ok? && ToIstIso(Some(a)).value.Some?
    ensures ToIstIso(Some(b)).Ok? && ToIstIso(Some(b)).value.Some?
    ensures var s, t := ToIstIso(Some(a)).value.value, ToIstIso(Some(b)).value.value;
            && (Less(s, t) <==> Instant(a) / 1000 < Instant(b) / 1000)
            && |s| == 29 && Instant(Aware(ParseIso(s), IST_OFFSET)) == Instant(a) / 1000 * 1000
  {
    TruncatedInstant(a);
    TruncatedInstant(b);
    StringOrderIsTimeOrder(ToIst(a).value, ToIst(b).value);
    ParseRendered(ToIst(a).value);
    ThousandsOrder(Instant(a), Instant(b));
  }

  /** The instant a printed text denotes, read in full: the day, the time, and the sign,
      hours and minutes of its offset. */
  function ReadInstant(s: string): int
    requires |s| == 29
  {
    var day := Ordinal(Date(Value(s[0..4]), Value(s[5..7]), Value(s[8..10])));
    var seconds := ((day * 24 + Value(s[11..13])) * 60 + Value(s[14..16])) * 60 + Value(s[17..19]);
    var offset := (Value(s[24..26]) * 60 + Value(s[27..29])) * 60;
    ((seconds - if s[23] == '-' then -offset else offset) * 1000 + Value(s[20..23])) * 1000
  }

  /** Where the punctuation of a printed stamp stands. */
  predicate IsoShape(s: string) {
    && |s| == 29 && s[4] == '-' && s[7] == '-' && s[10] == 'T' && s[13] == ':' && s[16] == ':' && s[19] == '.'
    && (s[23] == '+' || s[23] == '-') && s[26] == ':'
  }

  lemma RenderShape(w: Wall)
    requires ValidWall(w)
    ensures IsoShape(Render(w)) && Render(w)[23] == '+'
    ensures Render(w)[24..26] == "05" && Render(w)[27..29] == "30"
  {
    var day, time := RenderDay(w.date), RenderTime(w);
    assert |day| == 10 && day[4] == '-' && day[7] == '-';
    assert |time| == 12 && time[2] == ':' && time[5] == ':' && time[8] == '.';
    assert Render(w) == day + "T" + time + "+05:30";
    assert Render(w)[23..] == "+05:30";
    assert Render(w)[24..26] == "+05:30"[1..3] && Render(w)[27..29] == "+05:30"[4..6];
  }

  lemma TwoDigits()
    ensures Value("05") == 5 && Value("30") == 30
  {
    assert "05"[..1] == "0" && "30"[..1] == "3" && "0"[..0] == "" && "3"[..0] == "";
  }

  lemma ReadRendered(w: Wall)
    requires ValidWall(w)
    ensures |Render(w)| == 29 && ReadInstant(Render(w)) == Micros(TruncateToMillis(w)) - 330 * 60 * 1000000
  {
    ParseRendered(w);
    RenderShape(w);
    TwoDigits();
    MicrosAre(TruncateToMillis(w));
  }

  /** Read in full, offset included, the printed text denotes the stamp's instant,
      truncated to milliseconds; a naive value is 330 minutes ahead of UTC. */
  lemma PrintedTextDenotes(a: Stamp)
    requires ValidWall(a.wall) && ToIst(a).Ok?
    ensures ToIstIso(Some(a)).Ok? && ToIstIso(Some(a)).value.Some?
    ensures var s := ToIstIso(Some(a)).value.value;
            && IsoShape(s)
            && ReadInstant(s) ==
               (Micros(a.wall) - if a.Aware? then a.offset else 330 * 60 * 1000000) / 1000 * 1000
  {
    TruncatedInstant(a);
    ReadRendered(ToIst(a).value);
    RenderShape(ToIst(a).value);
  }

  lemma WholeMillisOffset(m: int)
    ensures (m - IST_OFFSET) / 1000 == m / 1000 - IST_OFFSET / 1000
    ensures (m - IST_OFFSET) / 1000 * 1000 == m / 1000 * 1000 - IST_OFFSET
  {
  }

  // ---- Day bounds ----------------------------------------------------------------------------

  /** The route accepts only `NNNN-NN-NN`. */
  predicate DayPattern(s: string) {
    && |s| == 10 && s[4] == '-' && s[7] == '-'
    && forall i :: 0 <= i < 10 && i != 4 && i != 7 ==> IsDigit(s[i])
  }

  function DateOf(s: string): Date
    requires DayPattern(s)
  {
    Date(Value(s[0..4]), Value(s[5..7]), Value(s[8..10]))
  }

  function Midnight(d: Date): Wall {
    Wall(d, 0, 0, 0, 0)
  }

  /** `strptime` refuses impossible days; the upper bound can leave the calendar. */
  function IstDayBounds(s: string): Result<(Wall, Wall), Error>
    requires DayPattern(s)
  {
    var d := DateOf(s);
    if !ValidDate(d) then Err(BadDay)
    else
      match Add(Midnight(d), DAY)
      case Err(e) => Err(e)
      case Ok(end) => Ok((Midnight(d), end))
  }

  lemma DayFields(s: string)
    requires DayPattern(s)
    ensures 0 <= DateOf(s).year <= 9999 && 0 <= DateOf(s).month < 100 && 0 <= DateOf(s).day < 100
    ensures s == RenderDay(DateOf(s))
  {
    Pow10Small();
    ValuePad(s[0..4]);
    ValuePad(s[5..7]);
    ValuePad(s[8..10]);
    assert s == s[0..4] + "-" + s[5..7] + "-" + s[8..10];
  }

  lemma BoundsAre(s: string)
    requires DayPattern(s) && IstDayBounds(s).Ok?
    ensures ValidDate(DateOf(s))
    ensures Micros(IstDayBounds(s).value.0) == Ordinal(DateOf(s)) * DAY
    ensures Micros(IstDayBounds(s).value.1) == Ordinal(DateOf(s)) * DAY + DAY
  {
    AddMoves(Midnight(DateOf(s)), DAY);
  }

  lemma WithinDay(w: Wall, n: int)
    requires ValidWall(w)
    ensures n * DAY <= Micros(w) < n * DAY + DAY <==> Ordinal(w.date) == n
  {
    SinceMidnight(w, n);
    NextDayStart(n);
    SinceMidnight(w, n + 1);
  }

  lemma PrintedDay(w: Wall)
    requires ValidWall(w)
    ensures |Render(w)| == 29 && Render(w)[..10] == RenderDay(w.date)
  {
    RenderParts(w);
  }

  lemma PrintsDayIff(s: string, w: Wall)
    requires DayPattern(s) && ValidWall(w)
    ensures |Render(w)| == 29 && (Render(w)[..10] == s <==> w.date == DateOf(s))
  {
    PrintedDay(w);
    DayFields(s);
    if Render(w)[..10] == s {
      SameDayFields(w.date, DateOf(s));
    }
  }

  /** A naive value lies within a day's bounds exactly when its printed form starts with that day. */
  lemma InBoundsIffSameDay(s: string, w: Wall)
    requires DayPattern(s) && IstDayBounds(s).Ok? && ValidWall(w)
    ensures var bounds := IstDayBounds(s).value;
            && |Render(w)| == 29
            && (Render(w)[..10] == s <==> Micros(bounds.0) <= Micros(w) < Micros(bounds.1))
  {
    BoundsAre(s);
    WithinDay(w, Ordinal(DateOf(s)));
    OrdinalOrder(DateOf(s), w.date);
    PrintsDayIff(s, w);
  }

  lemma DayPieces(year: string, month: string, day: string)
    requires |year| == 4 && |month| == 2 && |day| == 2
    ensures var s := year + "-" + month + "-" + day;
            |s| == 10 && s[0..4] == year && s[5..7] == month && s[8..10] == day && s[4] == '-' && s[7] == '-'
  {
  }

  lemma SameDayFields(a: Date, b: Date)
    requires 0 <= a.year <= 9999 && 0 <= a.month < 100 && 0 <= a.day < 100
    requires 0 <= b.year <= 9999 && 0 <= b.month < 100 && 0 <= b.day < 100
    requires RenderDay(a) == RenderDay(b)
    ensures a == b
  {
    Pow10Small();
    DayPieces(Pad(a.year, 4), Pad(a.month, 2), Pad(a.day, 2));
    DayPieces(Pad(b.year, 4), Pad(b.month, 2), Pad(b.day, 2));
    PadIdentifies(a.year, b.year, 4);
    PadIdentifies(a.month, b.month, 2);
    PadIdentifies(a.day, b.day, 2);
  }

  lemma RenderedDayOrder(a: Date, b: Date)
    requires 0 <= a.year <= 9999 && 0 <= a.month < 100 && 0 <= a.day < 100
    requires 0 <= b.year <= 9999 && 0 <= b.month < 100 && 0 <= b.day < 100
    ensures Less(RenderDay(a), RenderDay(b)) <==> DateBefore(a, b)
  {
    Pow10Small();
    PadOrder(a.day, b.day, 2);
    var a1, b1 := Pad(a.month, 2) + "-" + Pad(a.day, 2), Pad(b.month, 2) + "-" + Pad(b.day, 2);
    FieldOrder(a.month, b.month, 2, "-", Pad(a.day, 2), Pad(b.day, 2));
    FieldOrder(a.year, b.year, 4, "-", a1, b1);
    assert RenderDay(a) == Pad(a.year, 4) + "-" + a1;
    assert RenderDay(b) == Pad(b.year, 4) + "-" + b1;
  }

  lemma SinceMidnight(w: Wall, n: int)
    requires ValidWall(w)
    ensures n * DAY <= Micros(w) <==> n <= Ordinal(w.date)
  {
    TimeInDay(w);
    DayStartOrder(Ordinal(w.date), TimeOfDay(w), n);
  }

  lemma TimeInDay(w: Wall)
    requires ValidWall(w)
    ensures 0 <= TimeOfDay(w) < DAY
  {
  }

  lemma DayStartOrder(m: int, t: int, n: int)
    requires 0 <= t < DAY
    ensures n * DAY <= m * DAY + t <==> n <= m
  {
  }

  /** Where a day's bounds lie, by the calendar. */
  lemma BoundsByDate(s: string, w: Wall)
    requires DayPattern(s) && IstDayBounds(s).Ok? && ValidWall(w)
    ensures Micros(IstDayBounds(s).value.0) <= Micros(w) <==> !DateBefore(w.date, DateOf(s))
    ensures Micros(w) < Micros(IstDayBounds(s).value.1) <==> !DateBefore(DateOf(s), w.date)
  {
    var n := Ordinal(DateOf(s));
    BoundsAre(s);
    SinceMidnight(w, n);
    NextDayStart(n);
    SinceMidnight(w, n + 1);
    OrdinalOrder(w.date, DateOf(s));
    OrdinalOrder(DateOf(s), w.date);
  }

  /** How the printed day compares with a written one. */
  lemma PrintedDayOrder(s: string, w: Wall)
    requires DayPattern(s) && ValidWall(w)
    ensures |Render(w)| == 29
    ensures Less(Render(w)[..10], s) <==> DateBefore(w.date, DateOf(s))
    ensures Less(s, Render(w)[..10]) <==> DateBefore(DateOf(s), w.date)
  {
    PrintedDay(w);
    DayFields(s);
    RenderedDayOrder(w.date, DateOf(s));
    RenderedDayOrder(DateOf(s), w.date);
  }

  /** From the start of a day and before its end, in time and in print. */
  lemma BoundsInPrint(s: string, w: Wall)
    requires DayPattern(s) && IstDayBounds(s).Ok? && ValidWall(w)
    ensures |Render(w)| == 29
    ensures Micros(IstDayBounds(s).value.0) <= Micros(w) <==> !Less(Render(w)[..10], s)
    ensures Micros(w) < Micros(IstDayBounds(s).value.1) <==> !Less(s, Render(w)[..10])
  {
    BoundsByDate(s, w);
    PrintedDayOrder(s, w);
  }

  lemma NextMidnight(d: Date)
    requires ValidDate(d)
    ensures Add(Midnight(d), DAY).Err? <==> NextDay(d).year > 9999
  {
    NextDayOrdinal(d);
    OrdinalPositive(d);
    var n := Ordinal(d) + 1;
    MidnightMicros(d);
    DayThenTime(n, 0, n, 0);
    OrdinalOrder(FromOrdinal(n), NextDay(d));
  }

  lemma NextDayStart(n: int)
    ensures n * DAY + DAY == (n + 1) * DAY + 0
  {
  }

  lemma MidnightMicros(d: Date)
    ensures Micros(Midnight(d)) + DAY == (Ordinal(d) + 1) * DAY + 0
  {
    assert TimeOfDay(Midnight(d)) == 0;
    NextDayStart(Ordinal(d));
  }

  lemma AddFailsByOverflow(w: Wall, delta: int)
    ensures Add(w, delta).Err? ==> Add(w, delta).error == Overflow
  {
  }

  /** The days of the calendar, in plain numbers. */
  lemma ValidDateIff(d: Date)
    ensures ValidDate(d) <==>
            && d.year >= 1 && 1 <= d.month <= 12
            && 1 <= d.day <= [31, 28, 31, 30, 31, 30, 31, 31, 30, 31, 30, 31][d.month - 1]
                             + if d.month == 2 && d.year % 4 == 0 && (d.year % 100 != 0 || d.year % 400 == 0) then 1
                               else 0
  {
  }

  /** The filter fails on impossible days and on the very last day of the calendar, and on no other. */
  lemma BoundsFailIff(s: string)
    requires DayPattern(s)
    ensures IstDayBounds(s) == Err(BadDay) <==> !ValidDate(DateOf(s))
    ensures IstDayBounds(s) == Err(Overflow) <==> DateOf(s) == Date(9999, 12, 31)
  {
    var d := DateOf(s);
    DayFields(s);
    if ValidDate(d) {
      NextMidnight(d);
      LastDay(d);
      AddFailsByOverflow(Midnight(d), DAY);
    }
  }

  lemma BoundsErr(s: string)
    requires DayPattern(s)
    ensures IstDayBounds(s).Err? <==> !ValidDate(DateOf(s)) || DateOf(s) == Date(9999, 12, 31)
  {
    BoundsFailIff(s);
    if ValidDate(DateOf(s)) {
      AddFailsByOverflow(Midnight(DateOf(s)), DAY);
    }
  }

  lemma LastDay(d: Date)
    requires ValidDate(d) && d.year <= 9999
    ensures NextDay(d).year > 9999 <==> d == Date(9999, 12, 31)
  {
  }

  lemma OrdinalPositive(d: Date)
    requires ValidDate(d)
    ensures Ordinal(d) >= 1
  {
    OrdinalOrder(Date(1, 1, 1), d);
  }
}
