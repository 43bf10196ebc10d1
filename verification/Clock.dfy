/** Civil dates from day numbers and back, on all integers, and the timestamps
    rendered from them. */
module Clock {

  /** Division as the machine does it: towards zero. */
  function Quotient(a: int, b: int): int
    requires b > 0
  {
    if a >= 0 then a / b else -((-a) / b)
  }

  // ---------------------------------------------------------------- the closed forms

  /** Days since 1970-01-01 of a year, month and day. */
  function DaysFromCivil(y: int, m: int, d: int): int {
    var y' := if m <= 2 then y - 1 else y;
    var era := Quotient(if y' >= 0 then y' else y' - 399, 400);
    var yoe := y' - era * 400;
    var mp := if m > 2 then m - 3 else m + 9;
    var doy := (153 * mp + 2) / 5 + d - 1;
    var doe := yoe * 365 + yoe / 4 - yoe / 100 + doy;
    era * 146097 + doe - 719468
  }

  /** Year, month and day of a day number. */
  function CivilFromDays(z: int): (int, int, int) {
    var z' := z + 719468;
    var era := Quotient(if z' >= 0 then z' else z' - 146096, 146097);
    CivilInEra(era, z' - era * 146097)
  }

  /** The date of day `doe` of an era of four hundred years. */
  function CivilInEra(era: int, doe: int): (int, int, int) {
    var yoe := YearOfEra(doe);
    var y := yoe + era * 400;
    var doy := doe - (365 * yoe + yoe / 4 - yoe / 100);
    var mp := (5 * doy + 2) / 153;
    var d := doy - (153 * mp + 2) / 5 + 1;
    var m := if mp < 10 then mp + 3 else mp - 9;
    (if m <= 2 then y + 1 else y, m, d)
  }

  function YearOfEra(doe: int): int {
    (doe - doe / 1460 + doe / 36524 - doe / 146096) / 365
  }

  // ------------------------------------------------------------------- the calendar

  predicate Leap(y: int) {
    y % 4 == 0 && (y % 100 != 0 || y % 400 == 0)
  }

  function DaysInMonth(y: int, m: int): int {
    if m == 2 then (if Leap(y) then 29 else 28)
    else if m == 4 || m == 6 || m == 9 || m == 11 then 30
    else 31
  }

  /** A date of the proleptic Gregorian calendar, years before zero included. */
  predicate ValidDate(y: int, m: int, d: int) {
    1 <= m <= 12 && 1 <= d <= DaysInMonth(y, m)
  }

  /** The next day by the calendar. */
  function NextDay(date: (int, int, int)): (int, int, int) {
    var (y, m, d) := date;
    if d < DaysInMonth(y, m) then (y, m, d + 1)
    else if m < 12 then (y, m + 1, 1)
    else (y + 1, 1, 1)
  }

  // --------------------------------------------------------------------- the proofs

  /** The era split is floor division on either side of zero. */
  lemma EraIsFloor(a: int, n: int)
    requires n > 0
    ensures n == 400 ==> Quotient(if a >= 0 then a else a - 399, 400) == a / 400
    ensures n == 146097 ==> Quotient(if a >= 0 then a else a - 146096, 146097) == a / 146097
  {
  }

  /** The year of the era, its century `c`, its place `q` among the century's
      fours and `r` in the four, is read off any of its days. */
  lemma {:induction false} YearOfEraIs(c: int, q: int, r: int, t: int)
    requires 0 <= c < 4 && 0 <= q < 25 && 0 <= r < 4 && 0 <= t < 365 + (if r == 3 && (q < 24 || c == 3) then 1 else 0)
    ensures YearOfEra(36524 * c + 1461 * q + 365 * r + t) == 100 * c + 4 * q + r
  {
    var doe := 36524 * c + 1461 * q + 365 * r + t;
    var f := if 24 * c + q + 365 * r + t >= 1460 then 1 else 0;
    DivIs(doe, 1460, 25 * c + q + f);
    CenturyQuotients(c, q, r, t);
    DivIs(doe - (25 * c + q + f) + c, 365, 100 * c + 4 * q + r);
  }

  lemma CenturyQuotients(c: int, q: int, r: int, t: int)
    requires 0 <= c < 4 && 0 <= q < 25 && 0 <= r < 4 && 0 <= t < 365 + (if r == 3 && (q < 24 || c == 3) then 1 else 0)
    ensures var doe := 36524 * c + 1461 * q + 365 * r + t;
      var last := if c == 3 && q == 24 && r == 3 && t == 365 then 1 else 0;
      doe / 36524 == c + last && doe / 146096 == last
  {
    var doe := 36524 * c + 1461 * q + 365 * r + t;
    var last := if c == 3 && q == 24 && r == 3 && t == 365 then 1 else 0;
    DivIs(doe, 36524, c + last);
    DivIs(doe, 146096, last);
  }

  lemma SmallMultiple(x: int, b: int)
    requires -b < x * b < b
    ensures x == 0
  {
  }

  lemma {:induction false} DivIs(a: int, b: int, n: int)
    requires b > 0 && n * b <= a < n * b + b
    ensures a / b == n
  {
    var x := a / b - n;
    assert x * b == (a / b) * b - n * b;
    assert a == (a / b) * b + a % b;
    SmallMultiple(x, b);
  }

  /** Days before March of year `y`, floor divisions throughout. */
  function MarchDays(y: int): int { 365 * y + y / 4 - y / 100 + y / 400 }

  /** Days from March of year `y` to the next. */
  function YearLength(y: int): int { if Leap(y + 1) then 366 else 365 }

  /** The date `t` days into the year that begins in March of `y`. */
  function DateOf(y: int, t: int): (int, int, int) {
    var mp := (5 * t + 2) / 153;
    var d := t - (153 * mp + 2) / 5 + 1;
    var m := if mp < 10 then mp + 3 else mp - 9;
    (if m <= 2 then y + 1 else y, m, d)
  }

  lemma YearParts(y: int) returns (e: int, c: int, q: int, r: int)
    ensures y == 400 * e + 100 * c + 4 * q + r && 0 <= c < 4 && 0 <= q < 25 && 0 <= r < 4
    ensures y / 400 == e && y / 100 == 4 * e + c && y / 4 == 100 * e + 25 * c + q
    ensures Leap(y + 1) <==> r == 3 && (q < 24 || c == 3)
  {
    e := y / 400;
    var n := y - 400 * e;
    c := n / 100;
    var m := n - 100 * c;
    q, r := m / 4, m - 4 * (m / 4);
    DivIs(y, 100, 4 * e + c);
    DivIs(y, 4, 100 * e + 25 * c + q);
    LeapParts(y, e, c, q, r);
  }

  lemma LeapParts(y: int, e: int, c: int, q: int, r: int)
    requires y == 400 * e + 100 * c + 4 * q + r && 0 <= c < 4 && 0 <= q < 25 && 0 <= r < 4
    ensures Leap(y + 1) <==> r == 3 && (q < 24 || c == 3)
  {
    NextYearParts(y, e, c, q, r);
    ModIs(y + 1, 4);
    ModIs(y + 1, 100);
    ModIs(y + 1, 400);
    hide Quotient;
  }

  lemma ModIs(a: int, b: int)
    requires b > 0
    ensures a % b == 0 <==> a == b * (a / b)
  {
  }

  /** The closed form on the `t`th day of a March year. */
  lemma {:induction false} CivilOf(y: int, t: int)
    requires 0 <= t < YearLength(y)
    ensures CivilFromDays(MarchDays(y) + t - 719468) == DateOf(y, t)
  {
    hide CivilFromDays, DateOf, Leap, YearOfEra;
    var e, c, q, r := YearParts(y);
    var n, doe := 100 * c + 4 * q + r, 36524 * c + 1461 * q + 365 * r + t;
    YearOfEraIs(c, q, r, t);
    DivIs(n, 4, 25 * c + q);
    DivIs(n, 100, c);
    assert MarchDays(y) + t == 146097 * e + doe;
    hide MarchDays, YearLength;
    CivilForm(e, n, doe, t, 25 * c + q, c);
  }

  lemma {:induction false} CivilForm(e: int, n: int, doe: int, t: int, fours: int, hundreds: int)
    requires 0 <= doe < 146097 && YearOfEra(doe) == n && n / 4 == fours && n / 100 == hundreds
    requires doe == 365 * n + fours - hundreds + t
    ensures CivilFromDays(146097 * e + doe - 719468) == DateOf(400 * e + n, t)
  {
    EraIsFloor(146097 * e + doe, 146097);
    DivIs(146097 * e + doe, 146097, e);
    EraForm(e, n, doe, t);
    hide CivilInEra, DateOf, YearOfEra, Quotient;
    assert 146097 * e + doe - 719468 + 719468 == 146097 * e + doe;
    assert 146097 * e + doe - e * 146097 == doe;
  }

  lemma EraForm(e: int, n: int, doe: int, t: int)
    requires YearOfEra(doe) == n && doe - (365 * n + n / 4 - n / 100) == t
    ensures CivilInEra(e, doe) == DateOf(400 * e + n, t)
  {
    hide YearOfEra;
    assert n + e * 400 == 400 * e + n;
  }

  lemma {:induction false} MarchYearGrows(y: int)
    ensures MarchDays(y + 1) == MarchDays(y) + YearLength(y)
  {
    var e, c, q, r := YearParts(y);
    NextYearParts(y, e, c, q, r);
  }

  lemma NextYearParts(y: int, e: int, c: int, q: int, r: int)
    requires y == 400 * e + 100 * c + 4 * q + r && 0 <= c < 4 && 0 <= q < 25 && 0 <= r < 4
    ensures (y + 1) / 4 == 100 * e + 25 * c + q + (if r == 3 then 1 else 0)
    ensures (y + 1) / 100 == 4 * e + c + (if r == 3 && q == 24 then 1 else 0)
    ensures (y + 1) / 400 == e + (if r == 3 && q == 24 && c == 3 then 1 else 0)
  {
    DivIs(y + 1, 4, 100 * e + 25 * c + q + (if r == 3 then 1 else 0));
    DivIs(y + 1, 100, 4 * e + c + (if r == 3 && q == 24 then 1 else 0));
    DivIs(y + 1, 400, e + (if r == 3 && q == 24 && c == 3 then 1 else 0));
  }

  /** Every day lies in one March year. */
  lemma MarchYearOf(z: int) returns (y: int, t: int)
    ensures 0 <= t < YearLength(y) && z + 719468 == MarchDays(y) + t
  {
    var z' := z + 719468;
    var e := z' / 146097;
    var doe := z' % 146097;
    var c := if doe / 36524 < 4 then doe / 36524 else 3;
    var s := doe - 36524 * c;
    var q := s / 1461;
    var u := s - 1461 * q;
    var r := if u / 365 < 4 then u / 365 else 3;
    t := u - 365 * r;
    y := 400 * e + 100 * c + 4 * q + r;
    assert 0 <= q < 25 && 0 <= r < 4 && 0 <= c < 4;
    LeapParts(y, e, c, q, r);
    DivIs(y, 400, e);
    DivIs(y, 100, 4 * e + c);
    DivIs(y, 4, 100 * e + 25 * c + q);
  }

  // ---------------------------------------------------------------- within a year

  /** Days before the `mp`th month after March. */
  function MonthStart(mp: int): int { (153 * mp + 2) / 5 }

  lemma MonthStarts()
    ensures MonthStart(0) == 0 && MonthStart(1) == 31 && MonthStart(2) == 61 && MonthStart(3) == 92
    ensures MonthStart(4) == 122 && MonthStart(5) == 153 && MonthStart(6) == 184 && MonthStart(7) == 214
    ensures MonthStart(8) == 245 && MonthStart(9) == 275 && MonthStart(10) == 306 && MonthStart(11) == 337
  {
  }

  /** Where the months of the March year end. */
  function MonthLength(mp: int): int {
    if mp == 1 || mp == 3 || mp == 6 || mp == 8 then 30 else if mp == 11 then 29 else 31
  }

  lemma MonthOf(t: int, mp: int)
    requires 0 <= mp < 12 && MonthStart(mp) <= t < MonthStart(mp) + MonthLength(mp)
    ensures (5 * t + 2) / 153 == mp
  {
    MonthStarts();
    DivIs(5 * t + 2, 153, mp);
  }

  lemma MonthFound(t: int) returns (mp: int)
    requires 0 <= t < 366
    ensures 0 <= mp < 12 && MonthStart(mp) <= t < MonthStart(mp) + MonthLength(mp)
    ensures (5 * t + 2) / 153 == mp
  {
    MonthStarts();
    mp := (5 * t + 2) / 153;
    assert 153 * mp <= 5 * t + 2 < 153 * mp + 153;
  }

  lemma MonthEnds(mp: int)
    requires 0 <= mp < 12
    ensures mp < 11 ==> MonthStart(mp + 1) == MonthStart(mp) + MonthLength(mp)
    ensures mp == 11 ==> MonthStart(mp) + MonthLength(mp) == 366
  {
    MonthStarts();
  }

  /** A day of a March year is a date of the calendar. */
  lemma DateValid(y: int, t: int)
    requires 0 <= t < YearLength(y)
    ensures ValidDate(DateOf(y, t).0, DateOf(y, t).1, DateOf(y, t).2)
  {
    var mp := MonthFound(t);
    MonthStarts();
  }

  /** Within a March year the next day is the calendar's. */
  lemma {:induction false} DateNext(y: int, t: int)
    requires 0 <= t < YearLength(y)
    ensures t + 1 < YearLength(y) ==> DateOf(y, t + 1) == NextDay(DateOf(y, t))
    ensures t + 1 == YearLength(y) ==> DateOf(y + 1, 0) == NextDay(DateOf(y, t))
  {
    var mp := MonthFound(t);
    MonthEnds(mp);
    MonthFits(y, mp);
    DateIs(y, t, mp);
    DateIs(y + 1, 0, 0);
    hide DateOf, DaysInMonth, YearLength, MonthLength;
    if t + 1 < MonthStart(mp) + MonthLength(mp) {
      MonthOf(t + 1, mp);
      DateIs(y, t + 1, mp);
    } else if mp < 11 {
      MonthOf(t + 1, mp + 1);
      DateIs(y, t + 1, mp + 1);
    }
  }

  /** Months of the March year against the calendar's. */
  lemma MonthFits(y: int, mp: int)
    requires 0 <= mp < 12
    ensures DaysInMonth(if mp < 10 then y else y + 1, if mp < 10 then mp + 3 else mp - 9)
         == if mp < 11 then MonthLength(mp) else YearLength(y) - MonthStart(11)
    ensures MonthStart(0) == 0
    ensures mp < 11 ==> MonthStart(mp) + MonthLength(mp) <= MonthStart(11) < YearLength(y)
  {
    MonthStarts();
    hide Leap;
  }

  // ------------------------------------------------------------------ main results

  /** Every day number has a date of the calendar. */
  lemma {:induction false} CivilIsValid(z: int)
    ensures var (y, m, d) := CivilFromDays(z); ValidDate(y, m, d)
  {
    hide CivilFromDays, DateOf, ValidDate, MarchDays, YearLength;
    var y, t := MarchYearOf(z);
    CivilOf(y, t);
    DateValid(y, t);
  }

  /** Day z + 1 is the calendar successor of day z; with day 0 this fixes every
      day, before the epoch and before year zero as well. */
  lemma {:induction false} CivilNext(z: int)
    ensures CivilFromDays(z + 1) == NextDay(CivilFromDays(z))
  {
    hide CivilFromDays, DateOf, NextDay, MarchDays, Leap;
    var y, t := MarchYearOf(z);
    CivilOf(y, t);
    DateNext(y, t);
    if t + 1 < YearLength(y) {
      CivilOf(y, t + 1);
    } else {
      MarchYearGrows(y);
      CivilOf(y + 1, 0);
    }
  }

  lemma {:induction false} Epoch()
    ensures CivilFromDays(0) == (1970, 1, 1)
  {
    hide CivilFromDays;
    assert MarchDays(1969) + 306 == 719468;
    assert YearLength(1969) == 365;
    CivilOf(1969, 306);
  }

  /** From day to date and back. */
  lemma {:induction false} DaysOfCivil(z: int)
    ensures var (y, m, d) := CivilFromDays(z); DaysFromCivil(y, m, d) == z
  {
    hide CivilFromDays, DateOf, DaysFromCivil, MarchDays, MonthStart, MonthLength, Leap;
    var y, t := MarchYearOf(z);
    CivilOf(y, t);
    var mp := MonthFound(t);
    hide YearLength;
    DaysOf(y, mp, t - MonthStart(mp) + 1);
    DateIs(y, t, mp);
  }

  lemma DateIs(y: int, t: int, mp: int)
    requires 0 <= mp < 12 && (5 * t + 2) / 153 == mp
    ensures DateOf(y, t) == (if mp < 10 then y else y + 1, if mp < 10 then mp + 3 else mp - 9, t - MonthStart(mp) + 1)
  {
  }

  /** The closed form of a date in its March year. */
  lemma {:induction false} DaysOf(y: int, mp: int, d: int)
    requires 0 <= mp < 12
    ensures DaysFromCivil(if mp < 10 then y else y + 1, if mp < 10 then mp + 3 else mp - 9, d)
         == MarchDays(y) + MonthStart(mp) + d - 1 - 719468
  {
    hide Leap, Quotient;
    EraIsFloor(y, 400);
    var e, c, q, r := YearParts(y);
    var n := 100 * c + 4 * q + r;
    DivIs(n, 4, 25 * c + q);
    DivIs(n, 100, c);
    assert MarchDays(y) == 146097 * e + 365 * n + 25 * c + q - c;
  }

  /** From date to day and back, for every date of the calendar. */
  lemma {:induction false} CivilOfDays(y: int, m: int, d: int)
    requires ValidDate(y, m, d)
    ensures CivilFromDays(DaysFromCivil(y, m, d)) == (y, m, d)
  {
    hide CivilFromDays, DateOf, DaysFromCivil, MarchDays, MonthStart, MonthLength, YearLength, DaysInMonth;
    var mp := if m > 2 then m - 3 else m + 9;
    var y' := if m <= 2 then y - 1 else y;
    var t := MonthStart(mp) + d - 1;
    DateInYear(y, m, d);
    DaysOf(y', mp, d);
    MonthOf(t, mp);
    DateIs(y', t, mp);
    CivilOf(y', t);
  }

  lemma DateInYear(y: int, m: int, d: int)
    requires ValidDate(y, m, d)
    ensures var mp := if m > 2 then m - 3 else m + 9;
      1 <= d <= MonthLength(mp) && 0 <= MonthStart(mp) + d - 1 < YearLength(if m <= 2 then y - 1 else y)
  {
    MonthStarts();
    hide Leap;
  }

  /** The round trip tells the dates that exist from those that do not. */
  lemma {:induction false} DateExists(y: int, m: int, d: int)
    ensures CivilFromDays(DaysFromCivil(y, m, d)) == (y, m, d) <==> ValidDate(y, m, d)
  {
    CivilIsValid(DaysFromCivil(y, m, d));
    if ValidDate(y, m, d) { CivilOfDays(y, m, d); }
  }

  // -------------------------------------------------------------------- timestamps

  predicate DateBefore(a: (int, int, int), b: (int, int, int)) {
    a.0 < b.0 || (a.0 == b.0 && (a.1 < b.1 || (a.1 == b.1 && a.2 < b.2)))
  }

  /** Dates come in the order of their days. */
  lemma {:induction false} DatesGrow(z: int, later: int)
    requires z < later
    ensures DateBefore(CivilFromDays(z), CivilFromDays(later))
    decreases later - z
  {
    CivilNext(later - 1);
    hide CivilFromDays;
    if z < later - 1 { DatesGrow(z, later - 1); }
  }

  lemma YearFrom1970(z: nat)
    ensures CivilFromDays(z).0 >= 1970
  {
    Epoch();
    hide CivilFromDays;
    if z > 0 { DatesGrow(0, z); }
  }

  function Digit(n: nat): char
    requires n < 10
  {
    ['0', '1', '2', '3', '4', '5', '6', '7', '8', '9'][n]
  }

  function Decimal(n: nat): (s: string)
    ensures s != []
  {
    if n < 10 then [Digit(n)] else Decimal(n / 10) + [Digit(n % 10)]
  }

  /** At least `width` digits, zeros in front. */
  function Padded(n: nat, width: nat): string {
    var s := Decimal(n);
    if |s| >= width then s else seq(width - |s|, i => '0') + s
  }

  /** The timestamp of a second since the epoch. */
  function Iso8601(secs: nat): string {
    var date := CivilFromDays(secs / 86400);
    CivilIsValid(secs / 86400);
    YearFrom1970(secs / 86400);
    var rest := secs % 86400;
    Padded(date.0, 4) + "-" + Padded(date.1, 2) + "-" + Padded(date.2, 2) + "T"
    + Padded(rest / 3600, 2) + ":" + Padded(rest % 3600 / 60, 2) + ":" + Padded(rest % 60, 2) + "Z"
  }

  predicate StringBefore(a: string, b: string) {
    if b == [] then false
    else if a == [] then true
    else a[0] < b[0] || (a[0] == b[0] && StringBefore(a[1..], b[1..]))
  }

  function Pow10(n: nat): nat { if n == 0 then 1 else 10 * Pow10(n - 1) }

  lemma {:induction false} PaddedWidth(n: nat, width: nat)
    requires n < Pow10(width) && width > 0
    ensures |Padded(n, width)| == width
    ensures width > 1 ==> Padded(n, width) == Padded(n / 10, width - 1) + [Digit(n % 10)]
  {
    if width > 1 {
      hide Padded, Decimal, Digit;
      PaddedWidth(n / 10, width - 1);
      PaddedStep(n, width);
    }
  }

  lemma PaddedStep(n: nat, width: nat)
    requires width > 1 && |Padded(n / 10, width - 1)| == width - 1
    ensures Padded(n, width) == Padded(n / 10, width - 1) + [Digit(n % 10)]
  {
    hide Digit;
    if n < 10 {
      assert Padded(n, width) == seq(width - 1, i => '0') + [Digit(n)];
      assert Decimal(0) == [Digit(0)] == ['0'] by { FirstDigits(); }
    } else {
      assert Decimal(n) == Decimal(n / 10) + [Digit(n % 10)];
    }
  }

  lemma FirstDigits()
    ensures Digit(0) == '0' && Digit(1) == '1'
  {
  }

  lemma {:induction false} LeadDecides(a: string, b: string, x: string, y: string)
    requires |a| == |b|
    ensures StringBefore(a, b) ==> StringBefore(a + x, b + y)
    ensures a == b && StringBefore(x, y) ==> StringBefore(a + x, b + y)
  {
    if a == [] {
      assert a + x == x && b + y == y;
    } else {
      assert (a + x)[1..] == a[1..] + x && (b + y)[1..] == b[1..] + y;
      LeadDecides(a[1..], b[1..], x, y);
    }
  }

  lemma DigitsGrow(m: nat, n: nat)
    requires m < n < 10
    ensures Digit(m) < Digit(n) && StringBefore([Digit(m)], [Digit(n)])
  {
  }

  /** Padded numbers sort as strings like numbers. */
  lemma {:induction false} PaddedGrows(m: nat, n: nat, width: nat)
    requires m < n < Pow10(width) && width > 0
    ensures StringBefore(Padded(m, width), Padded(n, width))
    decreases width
  {
    hide Padded, StringBefore, Digit, Decimal;
    if width == 1 {
      OneDigit(m);
      OneDigit(n);
      DigitsGrow(m, n);
    } else {
      PaddedWidth(m, width);
      PaddedWidth(n, width);
      var a, b := m / 10, n / 10;
      assert b < Pow10(width - 1);
      PaddedWidth(a, width - 1);
      PaddedWidth(b, width - 1);
      hide Pow10;
      if a < b {
        PaddedGrows(a, b, width - 1);
      } else {
        DigitsGrow(m % 10, n % 10);
      }
      LeadDecides(Padded(a, width - 1), Padded(b, width - 1), [Digit(m % 10)], [Digit(n % 10)]);
    }
  }

  lemma OneDigit(n: nat)
    requires n < 10
    ensures Padded(n, 1) == [Digit(n)]
  {
  }

  /** A number, a separator and the rest: the number decides first. */
  lemma FieldDecides(m: nat, n: nat, width: nat, x: string, y: string)
    requires m < Pow10(width) && n < Pow10(width) && width > 0
    ensures m < n ==> StringBefore(Padded(m, width) + x, Padded(n, width) + y)
    ensures m == n && StringBefore(x, y) ==> StringBefore(Padded(m, width) + x, Padded(n, width) + y)
  {
    PaddedWidth(m, width);
    PaddedWidth(n, width);
    if m < n { PaddedGrows(m, n, width); }
    LeadDecides(Padded(m, width), Padded(n, width), x, y);
  }

  function ClockTail(rest: nat): string
    requires rest < 86400
  {
    Padded(rest / 3600, 2) + (":" + (Padded(rest % 3600 / 60, 2) + (":" + (Padded(rest % 60, 2) + "Z"))))
  }

  function DayTail(date: (int, int, int), rest: nat): string
    requires date.0 >= 0 && 1 <= date.1 <= 12 && 1 <= date.2 <= 31 && rest < 86400
  {
    Padded(date.0, 4) + ("-" + (Padded(date.1, 2) + ("-" + (Padded(date.2, 2) + ("T" + ClockTail(rest))))))
  }

  /** A two-digit number, a separator and what follows. */
  function Field(n: nat, separator: string, rest: string): string {
    Padded(n, 2) + (separator + rest)
  }

  lemma FieldSorts(m: nat, n: nat, separator: string, x: string, y: string)
    requires m < 100 && n < 100 && (m < n || (m == n && StringBefore(x, y)))
    ensures StringBefore(Field(m, separator, x), Field(n, separator, y))
  {
    hide Padded, StringBefore;
    Powers();
    LeadDecides(separator, separator, x, y);
    FieldDecides(m, n, 2, separator + x, separator + y);
  }

  lemma ClockSorts(a: nat, b: nat)
    requires a < b < 86400
    ensures StringBefore(ClockTail(a), ClockTail(b))
  {
    hide Padded, StringBefore;
    var s, t := Padded(a % 60, 2) + "Z", Padded(b % 60, 2) + "Z";
    hide Field;
    ClockFields(a);
    ClockFields(b);
    TimesCompare(a, b);
    hide ClockTail;
    if a / 3600 == b / 3600 {
      if a % 3600 / 60 == b % 3600 / 60 {
        SecondsSort(a % 60, b % 60);
      }
      FieldSorts(a % 3600 / 60, b % 3600 / 60, ":", s, t);
    }
    FieldSorts(a / 3600, b / 3600, ":", Field(a % 3600 / 60, ":", s), Field(b % 3600 / 60, ":", t));
  }

  lemma ClockFields(rest: nat)
    requires rest < 86400
    ensures ClockTail(rest) == Field(rest / 3600, ":", Field(rest % 3600 / 60, ":", Padded(rest % 60, 2) + "Z"))
  {
    hide Padded;
  }

  lemma TimesCompare(a: nat, b: nat)
    requires a < b < 86400
    ensures b / 3600 < 100 && a % 3600 / 60 < 100 && b % 3600 / 60 < 100
    ensures a / 3600 < b / 3600
         || (a / 3600 == b / 3600 && (a % 3600 / 60 < b % 3600 / 60 || (a % 3600 / 60 == b % 3600 / 60 && a % 60 < b % 60)))
  {
    SecondsLeft(a);
    SecondsLeft(b);
  }

  lemma SecondsLeft(n: nat)
    ensures n == 3600 * (n / 3600) + 60 * (n % 3600 / 60) + n % 60 && n % 3600 / 60 < 60
    ensures n < 86400 ==> n / 3600 < 24
  {
    ModMod(n / 3600, n % 3600);
  }

  lemma ModMod(hours: nat, rest: nat)
    ensures (3600 * hours + rest) % 60 == rest % 60
  {
    DivIs(3600 * hours + rest, 60, 60 * hours + rest / 60);
  }

  lemma SecondsSort(m: nat, n: nat)
    requires m < n < 60
    ensures StringBefore(Padded(m, 2) + "Z", Padded(n, 2) + "Z")
  {
    hide Padded, StringBefore;
    Powers();
    FieldDecides(m, n, 2, "Z", "Z");
  }

  lemma Powers()
    ensures Pow10(2) == 100 && Pow10(3) == 1000 && Pow10(4) == 10000
  {
  }

  lemma DaySorts(p: (int, int, int), q: (int, int, int), a: nat, b: nat)
    requires 0 <= p.0 <= 9999 && 1 <= p.1 <= 12 && 1 <= p.2 <= 31 && a < 86400
    requires 0 <= q.0 <= 9999 && 1 <= q.1 <= 12 && 1 <= q.2 <= 31 && b < 86400
    requires DateBefore(p, q) || (p == q && a < b)
    ensures StringBefore(DayTail(p, a), DayTail(q, b))
  {
    hide Padded, StringBefore, ClockTail;
    var s, t := Padded(p.2, 2) + ("T" + ClockTail(a)), Padded(q.2, 2) + ("T" + ClockTail(b));
    var u, v := Padded(p.1, 2) + ("-" + s), Padded(q.1, 2) + ("-" + t);
    Powers();
    if p.0 == q.0 {
      if p.1 == q.1 {
        if p.2 == q.2 {
          ClockSorts(a, b);
          LeadDecides("T", "T", ClockTail(a), ClockTail(b));
        }
        FieldDecides(p.2, q.2, 2, "T" + ClockTail(a), "T" + ClockTail(b));
        LeadDecides("-", "-", s, t);
      }
      FieldDecides(p.1, q.1, 2, "-" + s, "-" + t);
      LeadDecides("-", "-", u, v);
    }
    FieldDecides(p.0, q.0, 4, "-" + u, "-" + v);
  }

  lemma Grouped(date: (int, int, int), rest: nat)
    requires date.0 >= 0 && 1 <= date.1 <= 12 && 1 <= date.2 <= 31 && rest < 86400
    ensures Padded(date.0, 4) + "-" + Padded(date.1, 2) + "-" + Padded(date.2, 2) + "T"
          + Padded(rest / 3600, 2) + ":" + Padded(rest % 3600 / 60, 2) + ":" + Padded(rest % 60, 2) + "Z"
         == DayTail(date, rest)
  {
    hide Padded;
  }

  /** A timestamp by its date and its time of day. */
  lemma StampParts(secs: nat)
    ensures var date := CivilFromDays(secs / 86400);
      && date.0 >= 0 && 1 <= date.1 <= 12 && 1 <= date.2 <= 31
      && Iso8601(secs) == DayTail(date, secs % 86400)
  {
    hide CivilFromDays, Padded, DayTail;
    CivilIsValid(secs / 86400);
    YearFrom1970(secs / 86400);
    Grouped(CivilFromDays(secs / 86400), secs % 86400);
  }

  /** The second at which the year 10000 begins. */
  const TEN_THOUSAND: nat := 253402300800

  /** Before it, and only before it, the year has at most four digits. */
  lemma {:induction false} FourDigits(secs: nat)
    ensures CivilFromDays(secs / 86400).0 <= 9999 <==> secs < TEN_THOUSAND
  {
    hide CivilFromDays, Iso8601;
    NewYear10000();
    StampParts(secs);
    var z := secs / 86400;
    if z < 2932897 { DatesGrow(z, 2932897); }
    if 2932897 < z { DatesGrow(2932897, z); }
  }

  lemma NewYear10000()
    ensures CivilFromDays(2932897) == (10000, 1, 1)
  {
    hide CivilFromDays;
    assert MarchDays(9999) + 306 - 719468 == 2932897;
    assert YearLength(9999) == 366;
    CivilOf(9999, 306);
  }

  lemma {:induction false} LaterSortsLater(a: nat, b: nat)
    requires a < b < TEN_THOUSAND
    ensures StringBefore(Iso8601(a), Iso8601(b))
  {
    hide CivilFromDays, Padded, StringBefore, DayTail, Iso8601;
    var y, z := a / 86400, b / 86400;
    StampParts(a);
    StampParts(b);
    FourDigits(a);
    FourDigits(b);
    if y < z { DatesGrow(y, z); }
    DaySorts(CivilFromDays(y), CivilFromDays(z), a % 86400, b % 86400);
  }

  lemma {:induction false} OneBefore(a: string, b: string)
    ensures !(StringBefore(a, b) && StringBefore(b, a)) && !StringBefore(a, a)
  {
    if a != [] && b != [] { OneBefore(a[1..], b[1..]); }
    if a != [] { OneBefore(a[1..], a[1..]); }
  }

  /** Timestamps sort like their seconds while the year has four digits. */
  lemma {:induction false} TimestampsSort(a: nat, b: nat)
    requires a < TEN_THOUSAND && b < TEN_THOUSAND
    ensures StringBefore(Iso8601(a), Iso8601(b)) <==> a < b
  {
    hide Iso8601, StringBefore;
    OneBefore(Iso8601(a), Iso8601(b));
    if a < b { LaterSortsLater(a, b); }
    if b < a { LaterSortsLater(b, a); }
  }

  /** At the year 10000 that order ends: its first timestamp sorts before that of every
      second there was. */
  lemma {:induction false} TenThousandSortsFirst(secs: nat)
    requires secs < TEN_THOUSAND
    ensures StringBefore(Iso8601(TEN_THOUSAND), Iso8601(secs)) && !StringBefore(Iso8601(secs), Iso8601(TEN_THOUSAND))
  {
    hide CivilFromDays, Iso8601, StringBefore, DayTail, Padded;
    FourDigits(secs);
    YearFrom1970(secs / 86400);
    NewYear10000();
    StampParts(secs);
    StampParts(TEN_THOUSAND);
    assert TEN_THOUSAND / 86400 == 2932897 && TEN_THOUSAND % 86400 == 0;
    YearFirst(CivilFromDays(secs / 86400), secs % 86400);
    OneBefore(Iso8601(TEN_THOUSAND), Iso8601(secs));
  }

  lemma YearFirst(date: (int, int, int), rest: nat)
    requires 1970 <= date.0 <= 9999 && 1 <= date.1 <= 12 && 1 <= date.2 <= 31 && rest < 86400
    ensures StringBefore(DayTail((10000, 1, 1), 0), DayTail(date, rest))
  {
    hide StringBefore, ClockTail, Padded;
    YearDigits(date.0);
    TenThousandDigits();
    YearDecides(Padded(10000, 4), Padded(date.0, 4));
    FrontDecides(Padded(10000, 4), Padded(date.0, 4),
                 "-" + (Padded(1, 2) + ("-" + (Padded(1, 2) + ("T" + ClockTail(0))))),
                 "-" + (Padded(date.1, 2) + ("-" + (Padded(date.2, 2) + ("T" + ClockTail(rest))))));
  }

  lemma FrontDecides(a: string, b: string, x: string, y: string)
    requires |b| <= |a| && StringBefore(a[..|b|], b)
    ensures StringBefore(a + x, b + y)
  {
    hide StringBefore;
    LeadDecides(a[..|b|], b, a[|b|..] + x, y);
    assert a + x == a[..|b|] + (a[|b|..] + x);
  }

  lemma TenThousandDigits()
    ensures Padded(10000, 4) == "10000"
  {
    assert Decimal(1) == "1" && Decimal(10) == "10" && Decimal(100) == "100" && Decimal(1000) == "1000";
  }

  /** The first digits of a year from 1970 on. */
  lemma YearDigits(year: nat)
    requires 1970 <= year <= 9999
    ensures var y := Padded(year, 4); |y| == 4 && ('1' < y[0] || (y[0] == '1' && '0' < y[1]))
  {
    hide Padded, Decimal, Digit;
    var a := year / 10;
    var b := a / 10;
    var c := b / 10;
    assert 1 <= c < 10 && (c == 1 ==> b % 10 == 9);
    Powers();
    hide Pow10;
    PaddedWidth(year, 4);
    PaddedWidth(a, 3);
    PaddedWidth(b, 2);
    OneDigit(c);
    assert Padded(year, 4) == [Digit(c)] + [Digit(b % 10)] + [Digit(a % 10)] + [Digit(year % 10)];
    if c > 1 { DigitsGrow(1, c); } else { DigitsGrow(0, 9); }
    FirstDigits();
  }

  lemma YearDecides(x: string, y: string)
    requires x == "10000" && |y| == 4 && ('1' < y[0] || (y[0] == '1' && '0' < y[1]))
    ensures StringBefore(x[..4], y)
  {
    assert x[..4][1..] == "000";
  }

  // ---------------------------------------------------------------- reading it back

  function DigitValue(c: char): nat {
    if '0' <= c <= '9' then (c as int - '0' as int) else 0
  }

  /** The number a string of digits stands for. */
  function Number(s: string): nat {
    if s == [] then 0 else 10 * Number(s[..|s| - 1]) + DigitValue(s[|s| - 1])
  }

  lemma DigitReads(n: nat)
    requires n < 10
    ensures DigitValue(Digit(n)) == n
  {
  }

  lemma {:induction false} PaddedReads(n: nat, width: nat)
    requires n < Pow10(width) && width > 0
    ensures |Padded(n, width)| == width && Number(Padded(n, width)) == n
  {
    PaddedWidth(n, width);
    hide Padded, Digit, DigitValue;
    if width == 1 {
      OneDigit(n);
      DigitReads(n);
      assert [Digit(n)][..0] == [];
      assert Number([]) == 0;
    } else {
      PaddedReads(n / 10, width - 1);
      DigitReads(n % 10);
      var s := Padded(n, width);
      assert s[..width - 1] == Padded(n / 10, width - 1) && s[width - 1] == Digit(n % 10);
    }
  }

  /** The twenty characters of a timestamp, read by their places, give its second. */
  lemma {:induction false} StampReads(secs: nat)
    requires secs < TEN_THOUSAND
    ensures var s := Iso8601(secs);
      && |s| == 20 && s[4] == '-' && s[7] == '-' && s[10] == 'T' && s[13] == ':' && s[16] == ':' && s[19] == 'Z'
      && secs == 86400 * DaysFromCivil(Number(s[..4]), Number(s[5..7]), Number(s[8..10]))
               + 3600 * Number(s[11..13]) + 60 * Number(s[14..16]) + Number(s[17..19])
  {
    hide CivilFromDays, DaysFromCivil, Iso8601, Padded, Number, Pow10;
    var z, rest := secs / 86400, secs % 86400;
    var date := CivilFromDays(z);
    FourDigits(secs);
    StampParts(secs);
    DaysOfCivil(z);
    Powers();
    SecondsLeft(rest);
    PaddedReads(date.0, 4);
    PaddedReads(date.1, 2);
    PaddedReads(date.2, 2);
    PaddedReads(rest / 3600, 2);
    PaddedReads(rest % 3600 / 60, 2);
    PaddedReads(rest % 60, 2);
    StampPlaces(Padded(date.0, 4), Padded(date.1, 2), Padded(date.2, 2),
                Padded(rest / 3600, 2), Padded(rest % 3600 / 60, 2), Padded(rest % 60, 2));
  }

  lemma StampPlaces(y: string, m: string, d: string, h: string, mi: string, sec: string)
    requires |y| == 4 && |m| == |d| == |h| == |mi| == |sec| == 2
    ensures var s := y + ("-" + (m + ("-" + (d + ("T" + (h + (":" + (mi + (":" + (sec + "Z"))))))))));
      && |s| == 20 && s[4] == '-' && s[7] == '-' && s[10] == 'T' && s[13] == ':' && s[16] == ':' && s[19] == 'Z'
      && s[..4] == y && s[5..7] == m && s[8..10] == d && s[11..13] == h && s[14..16] == mi && s[17..19] == sec
  {
    var r5 := sec + "Z";
    var r4 := mi + (":" + r5);
    var r3 := h + (":" + r4);
    var r2 := d + ("T" + r3);
    var r1 := m + ("-" + r2);
    var s := y + ("-" + r1);
    Place(s, 0, y, '-', r1);
    Place(s, 5, m, '-', r2);
    Place(s, 8, d, 'T', r3);
    Place(s, 11, h, ':', r4);
    Place(s, 14, mi, ':', r5);
    Place(s, 17, sec, 'Z', "");
    assert sec + ("Z" + "") == r5;
  }

  /** A field, its separator and the rest, from a place in a string on. */
  lemma Place(s: string, k: nat, field: string, separator: char, rest: string)
    requires k <= |s| && s[k..] == field + ([separator] + rest)
    ensures var n := k + |field|;
      n < |s| && s[k..n] == field && s[n] == separator && s[n + 1..] == rest && |s| == n + 1 + |rest|
  {
    var t, n := s[k..], |field|;
    assert t[..n] == field && t[n] == separator && t[n + 1..] == rest;
    assert s[k..k + n] == t[..n] && s[k + n] == t[n] && s[k + n + 1..] == t[n + 1..];
  }
}
