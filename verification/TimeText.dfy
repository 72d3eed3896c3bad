/** Timestamps as text.  SQL compares the stored timestamps as strings (RFC 3339, section
    5.1), so the canonical encoding must order exactly as the instants do. */
module TimeText {
  import opened Ordering
  import opened Wrappers

  // ---------------------------------------------------------------- the calendar

  /** A broken-down date and time. */
  datatype Civil = Civil(year: nat, month: nat, day: nat, hour: nat, minute: nat, second: nat, micro: nat)

  /** A datetime: its local reading, and its UTC offset in seconds if it is aware. */
  datatype DateTime = DateTime(local: Civil, offset: Option<int>)

  predicate IsLeap(y: nat) {
    y % 4 == 0 && (y % 100 != 0 || y % 400 == 0)
  }

  function DaysIn(y: nat, m: nat): (d: nat)
    ensures 28 <= d <= 31
  {
    if m == 2 then (if IsLeap(y) then 29 else 28)
    else if m == 4 || m == 6 || m == 9 || m == 11 then 30 else 31
  }

  function DaysInYear(y: nat): nat {
    if IsLeap(y) then 366 else 365
  }

  predicate ValidCivil(c: Civil) {
    && 1 <= c.year && 1 <= c.month <= 12 && 1 <= c.day <= DaysIn(c.year, c.month)
    && c.hour < 24 && c.minute < 60 && c.second < 60 && c.micro < 1000000
  }

  /** Days from 1 January of year 1 to 1 January of year y. */
  function DaysBeforeYear(y: nat): (n: nat)
    requires y >= 1
  {
    var p := y - 1;
    p * 365 + p / 4 - p / 100 + p / 400
  }

  lemma DaysBeforeNextYear(y: nat)
    requires y >= 1
    ensures DaysBeforeYear(y + 1) == DaysBeforeYear(y) + DaysInYear(y)
  {
    CountMultiples(y);
    MultiplesNest(y);
    LeapDays(y);
  }

  lemma CountMultiples(y: nat)
    requires y >= 1
    ensures y / 4 == (y - 1) / 4 + (if y % 4 == 0 then 1 else 0)
    ensures y / 100 == (y - 1) / 100 + (if y % 100 == 0 then 1 else 0)
    ensures y / 400 == (y - 1) / 400 + (if y % 400 == 0 then 1 else 0)
  {
  }

  lemma MultiplesNest(y: nat)
    ensures y % 400 == 0 ==> y % 100 == 0
    ensures y % 100 == 0 ==> y % 4 == 0
  {
    assert y % 400 == 0 ==> y == 100 * (4 * (y / 400));
    assert y % 100 == 0 ==> y == 4 * (25 * (y / 100));
  }

  lemma LeapDays(y: nat)
    requires y % 400 == 0 ==> y % 100 == 0
    requires y % 100 == 0 ==> y % 4 == 0
    ensures DaysInYear(y)
      == 365 + (if y % 4 == 0 then 1 else 0) - (if y % 100 == 0 then 1 else 0) + (if y % 400 == 0 then 1 else 0)
  {
  }

  function DaysBeforeMonth(y: nat, m: nat): nat
    requires 1 <= m <= 13
  {
    if m == 1 then 0 else DaysBeforeMonth(y, m - 1) + DaysIn(y, m - 1)
  }

  lemma {:induction false} YearsAreOrdered(y: nat, z: nat)
    requires 1 <= y <= z
    ensures y < z ==> DaysBeforeYear(y) + DaysInYear(y) <= DaysBeforeYear(z)
    decreases z
  {
    if y < z {
      DaysBeforeNextYear(z - 1);
      YearsAreOrdered(y, z - 1);
    }
  }

  lemma {:induction false} MonthsAreOrdered(y: nat, m: nat, n: nat)
    requires 1 <= m <= n <= 13
    ensures m < n ==> DaysBeforeMonth(y, m) + DaysIn(y, m) <= DaysBeforeMonth(y, n)
    decreases n
  {
    if m < n {
      MonthsAreOrdered(y, m, n - 1);
    }
  }

  lemma MonthsFillTheYear(y: nat)
    ensures DaysBeforeMonth(y, 13) == DaysInYear(y)
  {
    var feb := DaysIn(y, 2);
    assert DaysBeforeMonth(y, 2) == 31;
    assert DaysBeforeMonth(y, 3) == 31 + feb;
    assert DaysBeforeMonth(y, 4) == 62 + feb;
    assert DaysBeforeMonth(y, 5) == 92 + feb;
    assert DaysBeforeMonth(y, 6) == 123 + feb;
    assert DaysBeforeMonth(y, 7) == 153 + feb;
    assert DaysBeforeMonth(y, 8) == 184 + feb;
    assert DaysBeforeMonth(y, 9) == 215 + feb;
    assert DaysBeforeMonth(y, 10) == 245 + feb;
    assert DaysBeforeMonth(y, 11) == 276 + feb;
    assert DaysBeforeMonth(y, 12) == 306 + feb;
  }

  function DayNumber(c: Civil): nat
    requires ValidCivil(c)
  {
    DaysBeforeYear(c.year) + DaysBeforeMonth(c.year, c.month) + (c.day - 1)
  }

  const MICROS_PER_DAY: nat := 86400000000

  function MicroOfDay(c: Civil): nat {
    ((c.hour * 60 + c.minute) * 60 + c.second) * 1000000 + c.micro
  }

  /** Microseconds since the start of year 1. */
  function Instant(c: Civil): nat
    requires ValidCivil(c)
  {
    DayNumber(c) * MICROS_PER_DAY + MicroOfDay(c)
  }

  // ---------------------------------------------------------------- from instants to the calendar

  function YearOf(n: nat, y: nat): (r: nat)
    requires y >= 1 && DaysBeforeYear(y) <= n
    ensures r >= y && DaysBeforeYear(r) <= n < DaysBeforeYear(r) + DaysInYear(r)
    decreases n - DaysBeforeYear(y)
  {
    DaysBeforeNextYear(y);
    if n < DaysBeforeYear(y + 1) then y else YearOf(n, y + 1)
  }

  function MonthOf(y: nat, r: nat, m: nat): (k: nat)
    requires 1 <= m <= 12 && DaysBeforeMonth(y, m) <= r < DaysBeforeMonth(y, 13)
    ensures m <= k <= 12 && DaysBeforeMonth(y, k) <= r < DaysBeforeMonth(y, k) + DaysIn(y, k)
    decreases 12 - m
  {
    if r < DaysBeforeMonth(y, m + 1) then m else MonthOf(y, r, m + 1)
  }

  function DateOf(n: nat): (c: Civil)
    ensures ValidCivil(c) && DayNumber(c) == n
  {
    var y := YearOf(n, 1);
    MonthsFillTheYear(y);
    var r := n - DaysBeforeYear(y);
    var m := MonthOf(y, r, 1);
    Civil(y, m, r - DaysBeforeMonth(y, m) + 1, 0, 0, 0, 0)
  }

  function AtMicro(d: Civil, u: nat): (c: Civil)
    requires ValidCivil(d) && u < MICROS_PER_DAY
    ensures ValidCivil(c) && DayNumber(c) == DayNumber(d) && MicroOfDay(c) == u
  {
    var s := u / 1000000;
    var m := s / 60;
    Civil(d.year, d.month, d.day, m / 60, m % 60, s % 60, u % 1000000)
  }

  /** The calendar reading of an instant. */
  function CivilOf(t: nat): (c: Civil)
    ensures ValidCivil(c) && Instant(c) == t
  {
    AtMicro(DateOf(t / MICROS_PER_DAY), t % MICROS_PER_DAY)
  }

  // ---------------------------------------------------------------- order of readings

  /** Numbers of the same positions compared one after the other. */
  predicate LexLe(f: seq<nat>, g: seq<nat>)
    requires |f| == |g|
  {
    f == [] || f[0] < g[0] || (f[0] == g[0] && LexLe(f[1..], g[1..]))
  }

  /** The seven printed fields: microseconds are cut to milliseconds. */
  function Fields(c: Civil): (f: seq<nat>)
    ensures |f| == 7
  {
    [c.year, c.month, c.day, c.hour, c.minute, c.second, c.micro / 1000]
  }

  lemma DaysOrderLikeDates(a: Civil, b: Civil)
    requires ValidCivil(a) && ValidCivil(b)
    ensures a.year < b.year ==> DayNumber(a) < DayNumber(b)
    ensures a.year == b.year && a.month < b.month ==> DayNumber(a) < DayNumber(b)
    ensures a.year == b.year && a.month == b.month ==> DayNumber(a) - DayNumber(b) == a.day - b.day
  {
    if a.year < b.year {
      YearsAreOrdered(a.year, b.year);
      MonthsFillTheYear(a.year);
      MonthsAreOrdered(a.year, a.month, 13);
    } else if a.year == b.year && a.month < b.month {
      MonthsAreOrdered(a.year, a.month, b.month);
    }
  }

  lemma MillisOfInstant(c: Civil)
    requires ValidCivil(c)
    ensures Instant(c) / 1000
      == DayNumber(c) * 86400000 + ((c.hour * 60 + c.minute) * 60 + c.second) * 1000 + c.micro / 1000
    ensures ((c.hour * 60 + c.minute) * 60 + c.second) * 1000 + c.micro / 1000 < 86400000
  {
  }

  lemma FieldsOrderLikeMillis(a: Civil, b: Civil)
    requires ValidCivil(a) && ValidCivil(b)
    ensures LexLe(Fields(a), Fields(b)) <==> Instant(a) / 1000 <= Instant(b) / 1000
  {
    hide DayNumber, Instant;
    DaysOrderLikeDates(a, b);
    DaysOrderLikeDates(b, a);
    MillisOfInstant(a);
    MillisOfInstant(b);
    TimesOrder(a, b);
    LexLeSlices(Fields(a), Fields(b));
  }

  /** The comparison of seven fields, three of them unfolded. */
  lemma LexLeSlices(f: seq<nat>, g: seq<nat>)
    requires |f| == |g| == 7
    ensures LexLe(f, g) <==>
      || f[0] < g[0] || (f[0] == g[0] && f[1] < g[1])
      || (f[0] == g[0] && f[1] == g[1] && f[2] < g[2])
      || (f[0] == g[0] && f[1] == g[1] && f[2] == g[2] && LexLe(f[3..], g[3..]))
  {
    assert f[1..][1..] == f[2..] && g[1..][1..] == g[2..];
    assert f[2..][1..] == f[3..] && g[2..][1..] == g[3..];
    assert LexLe(f[2..], g[2..]) <==> f[2] < g[2] || (f[2] == g[2] && LexLe(f[3..], g[3..]));
    assert LexLe(f[1..], g[1..]) <==> f[1] < g[1] || (f[1] == g[1] && LexLe(f[2..], g[2..]));
  }

  lemma TimesOrder(a: Civil, b: Civil)
    requires ValidCivil(a) && ValidCivil(b)
    ensures LexLe(Fields(a)[3..], Fields(b)[3..]) <==>
      ((a.hour * 60 + a.minute) * 60 + a.second) * 1000 + a.micro / 1000
      <= ((b.hour * 60 + b.minute) * 60 + b.second) * 1000 + b.micro / 1000
  {
    var f, g := Fields(a)[3..], Fields(b)[3..];
    assert f[1..][1..] == f[2..] && g[1..][1..] == g[2..];
    assert f[2..][1..] == f[3..] && g[2..][1..] == g[3..];
    assert LexLe(f[3..], g[3..]) <==> f[3] <= g[3] by { assert f[3..][1..] == [] == g[3..][1..]; }
    assert LexLe(f[2..], g[2..]) <==> f[2] < g[2] || (f[2] == g[2] && LexLe(f[3..], g[3..]));
    assert LexLe(f[1..], g[1..]) <==> f[1] < g[1] || (f[1] == g[1] && LexLe(f[2..], g[2..]));
  }

  // ---------------------------------------------------------------- fixed-width text

  function Power10(w: nat): (p: nat)
    ensures p >= 1
  {
    if w == 0 then 1 else 10 * Power10(w - 1)
  }

  function Digit(d: nat): (c: char)
    requires d < 10
    ensures '0' <= c <= '9'
  {
    '0' + (d as char)
  }

  /** n in w decimal digits, zero padded. */
  function Pad(n: nat, w: nat): (s: string)
    requires n < Power10(w)
    ensures |s| == w
  {
    if w == 0 then "" else Pad(n / 10, w - 1) + [Digit(n % 10)]
  }

  function Number(s: string): Option<nat> {
    if s == "" then Some(0) else
      var c := s[|s| - 1];
      var front := Number(s[..|s| - 1]);
      if front.None? || !('0' <= c <= '9') then None else Some(front.value * 10 + (c - '0') as nat)
  }

  lemma {:induction false} NumberOfPad(n: nat, w: nat)
    requires n < Power10(w)
    ensures Number(Pad(n, w)) == Some(n)
  {
    if w > 0 {
      NumberOfPad(n / 10, w - 1);
      assert Pad(n, w)[..w - 1] == Pad(n / 10, w - 1);
    }
  }

  /** Texts with heads of equal length compare by head first. */
  lemma {:induction false} HeadsFirst(a: string, b: string, x: string, y: string)
    requires |a| == |b|
    ensures TextLe(a + x, b + y) <==> (a != b && TextLe(a, b)) || (a == b && TextLe(x, y))
  {
    if a == [] {
      assert a + x == x && b + y == y;
    } else {
      assert (a + x)[1..] == a[1..] + x && (b + y)[1..] == b[1..] + y;
      assert a == [a[0]] + a[1..] && b == [b[0]] + b[1..];
      HeadsFirst(a[1..], b[1..], x, y);
    }
  }

  lemma DigitOrder(d: nat, e: nat)
    requires d < 10 && e < 10
    ensures TextLe([Digit(d)], [Digit(e)]) <==> d <= e
  {
    assert [Digit(d)][1..] == "" && [Digit(e)][1..] == "";
  }

  lemma {:induction false} PadOrder(m: nat, n: nat, w: nat)
    requires m < Power10(w) && n < Power10(w)
    ensures TextLe(Pad(m, w), Pad(n, w)) <==> m <= n
    ensures Pad(m, w) == Pad(n, w) <==> m == n
  {
    hide Digit;
    NumberOfPad(m, w);
    NumberOfPad(n, w);
    if w > 0 {
      PadOrder(m / 10, n / 10, w - 1);
      DigitOrder(m % 10, n % 10);
      HeadsFirst(Pad(m / 10, w - 1), Pad(n / 10, w - 1), [Digit(m % 10)], [Digit(n % 10)]);
    }
  }

  /** A printed field: its width, and the character that closes it. */
  datatype Slot = Slot(width: nat, mark: char)

  predicate FitsLayout(f: seq<nat>, layout: seq<Slot>) {
    |f| == |layout| && forall i :: 0 <= i < |f| ==> f[i] < Power10(layout[i].width)
  }

  function Encode(f: seq<nat>, layout: seq<Slot>): string
    requires FitsLayout(f, layout)
  {
    if f == [] then "" else Pad(f[0], layout[0].width) + [layout[0].mark] + Encode(f[1..], layout[1..])
  }

  /** The numbers of a text of the given layout, if it has that layout. */
  function Decode(s: string, layout: seq<Slot>): Option<seq<nat>> {
    if layout == [] then (if s == "" then Some([]) else None)
    else
      var w := layout[0].width;
      if |s| <= w || s[w] != layout[0].mark || Number(s[..w]).None? then None
      else
        var rest := Decode(s[w + 1..], layout[1..]);
        if rest.None? then None else Some([Number(s[..w]).value] + rest.value)
  }

  lemma {:induction false} DecodeEncode(f: seq<nat>, layout: seq<Slot>)
    requires FitsLayout(f, layout)
    ensures Decode(Encode(f, layout), layout) == Some(f)
  {
    if f != [] {
      var w, s := layout[0].width, Encode(f, layout);
      DecodeEncode(f[1..], layout[1..]);
      NumberOfPad(f[0], w);
      assert s[..w] == Pad(f[0], w) && s[w + 1..] == Encode(f[1..], layout[1..]);
      assert [f[0]] + f[1..] == f;
    }
  }

  /** Text of one layout sorts as its numbers do. */
  lemma {:induction false} EncodeOrder(f: seq<nat>, g: seq<nat>, layout: seq<Slot>)
    requires FitsLayout(f, layout) && FitsLayout(g, layout)
    ensures TextLe(Encode(f, layout), Encode(g, layout)) <==> LexLe(f, g)
  {
    if f != [] {
      var slot := layout[0];
      var a, b := Pad(f[0], slot.width) + [slot.mark], Pad(g[0], slot.width) + [slot.mark];
      EncodeOrder(f[1..], g[1..], layout[1..]);
      PadOrder(f[0], g[0], slot.width);
      HeadsFirst(Pad(f[0], slot.width), Pad(g[0], slot.width), [slot.mark], [slot.mark]);
      HeadsFirst(a, b, Encode(f[1..], layout[1..]), Encode(g[1..], layout[1..]));
      assert a == b ==> a[..slot.width] == b[..slot.width];
    }
  }

  // ---------------------------------------------------------------- to_iso and from_iso

  /** YYYY-MM-DDTHH:MM:SS.mmmZ */
  const ISO_LAYOUT: seq<Slot> :=
    [Slot(4, '-'), Slot(2, '-'), Slot(2, 'T'), Slot(2, ':'), Slot(2, ':'), Slot(2, '.'), Slot(3, 'Z')]

  /** Readings in years that print with four digits. */
  predicate FourDigit(c: Civil) {
    ValidCivil(c) && 1000 <= c.year <= 9999
  }

  lemma FieldsFit(c: Civil)
    requires FourDigit(c)
    ensures FitsLayout(Fields(c), ISO_LAYOUT)
  {
    assert Power10(2) == 10 * Power10(1) == 100;
    assert Power10(4) == 10 * Power10(3) && Power10(3) == 10 * Power10(2);
  }

  /** A datetime after normalisation: its UTC reading, in a year that prints with four digits. */
  type Moment = c: Civil | FourDigit(c) witness Civil(1000, 1, 1, 0, 0, 0, 0)

  /** The stored text of a moment. */
  function IsoOf(t: Moment): string {
    FieldsFit(t);
    Encode(Fields(t), ISO_LAYOUT)
  }

  /** The instant a datetime denotes: naive readings are taken as UTC. */
  function UtcInstant(dt: DateTime): int
    requires ValidCivil(dt.local)
  {
    if dt.offset.None? then Instant(dt.local) else Instant(dt.local) - dt.offset.value * 1000000
  }

  /** Whether the conversion to UTC stays in the years that print with four digits. */
  predicate Printable(dt: DateTime) {
    ValidCivil(dt.local) && UtcInstant(dt) >= 0 && FourDigit(EnsureUtc(dt))
  }

  /** A reading that is naive or in UTC is kept as it is; any other is converted. */
  function EnsureUtc(dt: DateTime): (c: Civil)
    requires ValidCivil(dt.local) && UtcInstant(dt) >= 0
    ensures ValidCivil(c) && Instant(c) == UtcInstant(dt)
  {
    if dt.offset.None? || dt.offset.value == 0 then dt.local else CivilOf(UtcInstant(dt))
  }

  function ToIso(dt: DateTime): string
    requires Printable(dt)
  {
    IsoOf(EnsureUtc(dt))
  }

  /** Reading a timestamp of the canonical shape; None where the numbers are no date. */
  function FromIso(s: string): Option<DateTime> {
    match Decode(s, ISO_LAYOUT)
    case None => None
    case Some(f) =>
      if |f| != 7 then None else
        var c := Civil(f[0], f[1], f[2], f[3], f[4], f[5], f[6] * 1000);
        if ValidCivil(c) then Some(DateTime(c, Some(0))) else None
  }

  /** Stored texts order and coincide as moments do at millisecond resolution. */
  lemma IsoOfOrder(a: Moment, b: Moment)
    ensures TextLe(IsoOf(a), IsoOf(b)) <==> Instant(a) / 1000 <= Instant(b) / 1000
    ensures IsoOf(a) == IsoOf(b) <==> Instant(a) / 1000 == Instant(b) / 1000
  {
    hide Instant, Encode, Fields;
    FieldsFit(a);
    FieldsFit(b);
    EncodeOrder(Fields(a), Fields(b), ISO_LAYOUT);
    EncodeOrder(Fields(b), Fields(a), ISO_LAYOUT);
    FieldsOrderLikeMillis(a, b);
    FieldsOrderLikeMillis(b, a);
    TextLeTotal(IsoOf(a), IsoOf(b));
    if Instant(a) / 1000 == Instant(b) / 1000 {
      TextLeAntisymmetric(IsoOf(a), IsoOf(b));
    }
  }

  /** Text order of timestamps is time order at millisecond resolution, and equal texts mean
      the same millisecond, and only then. */
  lemma IsoOrderIsTimeOrder(a: DateTime, b: DateTime)
    requires Printable(a) && Printable(b)
    ensures TextLe(ToIso(a), ToIso(b)) <==> UtcInstant(a) / 1000 <= UtcInstant(b) / 1000
    ensures ToIso(a) == ToIso(b) <==> UtcInstant(a) / 1000 == UtcInstant(b) / 1000
  {
    IsoOfOrder(EnsureUtc(a), EnsureUtc(b));
  }

  /** Reading back what was written gives the instant cut to its millisecond. */
  lemma FromIsoToIso(dt: DateTime)
    requires Printable(dt)
    ensures var back := FromIso(ToIso(dt));
            && back.Some? && back.value.offset == Some(0) && ValidCivil(back.value.local)
            && UtcInstant(back.value) == UtcInstant(dt) / 1000 * 1000
  {
    hide EnsureUtc, Instant, Fields, Encode, Decode, FitsLayout;
    var c := EnsureUtc(dt);
    FieldsFit(c);
    DecodeEncode(Fields(c), ISO_LAYOUT);
    CutToMillis(c);
  }

  /** Rebuilding a reading from its seven fields drops only the microseconds past the millisecond. */
  lemma CutToMillis(c: Civil)
    requires ValidCivil(c)
    ensures var f := Fields(c);
            var cut := Civil(f[0], f[1], f[2], f[3], f[4], f[5], f[6] * 1000);
            ValidCivil(cut) && Instant(cut) == Instant(c) / 1000 * 1000
  {
    hide DayNumber;
    var cut := c.(micro := c.micro / 1000 * 1000);
    assert DayNumber(cut) == DayNumber(c) by { SameDateSameDay(c, cut); }
    MillisOfInstant(c);
    MillisOfInstant(cut);
  }

  lemma SameDateSameDay(a: Civil, b: Civil)
    requires ValidCivil(a) && ValidCivil(b) && a.year == b.year && a.month == b.month && a.day == b.day
    ensures DayNumber(a) == DayNumber(b)
  {
  }
}
