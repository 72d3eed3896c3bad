/** The calendar and the stored texts against what is known of them: month lengths, leap years, fixed
    dates, the direction of offsets, and the shape of RFC 3339 timestamps. */
module TimeLaws {
  import opened Ordering
  import opened Wrappers
  import opened TimeText

  // ---------------------------------------------------------------- the calendar

  /** Thirty days have April, June, September and November, and February has 28, or 29 in years that
      4 divides, unless 100 does and 400 does not. */
  lemma MonthLengths(y: nat, m: nat)
    requires 1 <= m <= 12
    ensures DaysIn(y, m) == 30 <==> m in {4, 6, 9, 11}
    ensures DaysIn(y, m) <= 29 <==> m == 2
    ensures DaysIn(y, 2) == 29 <==> y % 400 == 0 || (y % 4 == 0 && y % 100 != 0)
    ensures m !in {2, 4, 6, 9, 11} ==> DaysIn(y, m) == 31
  {
  }

  /** From March on, months begin every 153 days in five. */
  lemma MonthsBegin(y: nat, m: nat)
    requires 3 <= m <= 12
    ensures DaysBeforeMonth(y, m) == 31 + DaysIn(y, 2) + (153 * (m - 3) + 2) / 5
  {
    assert DaysBeforeMonth(y, 1) == 0;
    assert DaysBeforeMonth(y, 2) == 31;
    assert DaysBeforeMonth(y, 3) == 31 + DaysIn(y, 2);
    assert DaysBeforeMonth(y, 4) == 31 + DaysIn(y, 2) + 31;
    assert DaysBeforeMonth(y, 5) == 31 + DaysIn(y, 2) + 61;
    assert DaysBeforeMonth(y, 6) == 31 + DaysIn(y, 2) + 92;
    assert DaysBeforeMonth(y, 7) == 31 + DaysIn(y, 2) + 122;
    assert DaysBeforeMonth(y, 8) == 31 + DaysIn(y, 2) + 153;
    assert DaysBeforeMonth(y, 9) == 31 + DaysIn(y, 2) + 184;
    assert DaysBeforeMonth(y, 10) == 31 + DaysIn(y, 2) + 214;
    assert DaysBeforeMonth(y, 11) == 31 + DaysIn(y, 2) + 245;
  }

  /** The calendar repeats every 400 years, which are 146097 days. */
  lemma CalendarRepeats(y: nat)
    requires y >= 1
    ensures DaysBeforeYear(y + 400) == DaysBeforeYear(y) + 146097
  {
    FourHundredMore(y - 1);
  }

  lemma FourHundredMore(p: nat)
    ensures (p + 400) / 4 == p / 4 + 100 && (p + 400) / 100 == p / 100 + 4 && (p + 400) / 400 == p / 400 + 1
  {
  }

  lemma MarchBegins(y: nat)
    ensures DaysBeforeMonth(y, 1) == 0 && DaysBeforeMonth(y, 2) == 31 && DaysBeforeMonth(y, 3) == 31 + DaysIn(y, 2)
  {
    assert DaysBeforeMonth(y, 1) == 0;
    assert DaysBeforeMonth(y, 2) == 31;
  }

  /** The Unix epoch begins 62135596800 seconds after year 1. */
  lemma EpochInstant()
    ensures Instant(Civil(1970, 1, 1, 0, 0, 0, 0)) == 62135596800 * 1000000
  {
    MarchBegins(1970);
    hide DaysBeforeMonth;
    assert DaysBeforeYear(1970) == 719162;
  }

  /** From midnight of 28 February to midnight of 1 March it is one day, or two in a leap year. */
  lemma FebruaryEnds(y: nat)
    requires y >= 1
    ensures Instant(Civil(y, 3, 1, 0, 0, 0, 0)) - Instant(Civil(y, 2, 28, 0, 0, 0, 0))
      == (if y % 400 == 0 || (y % 4 == 0 && y % 100 != 0) then 2 else 1) * 86400 * 1000000
  {
    MarchBegins(y);
    MonthLengths(y, 2);
    hide DaysBeforeMonth, DaysBeforeYear, DaysIn;
  }

  // ---------------------------------------------------------------- instants and offsets

  lemma SameDay(a: Civil, b: Civil)
    requires ValidCivil(a) && ValidCivil(b) && DayNumber(a) == DayNumber(b)
    ensures a.year == b.year && a.month == b.month && a.day == b.day
  {
    hide DayNumber;
    DaysOrderLikeDates(a, b);
    DaysOrderLikeDates(b, a);
  }

  lemma SameMicro(a: Civil, b: Civil)
    requires ValidCivil(a) && ValidCivil(b) && MicroOfDay(a) == MicroOfDay(b)
    ensures a.hour == b.hour && a.minute == b.minute && a.second == b.second && a.micro == b.micro
  {
  }

  /** Different readings are different instants. */
  lemma InstantIsInjective(a: Civil, b: Civil)
    requires ValidCivil(a) && ValidCivil(b) && Instant(a) == Instant(b)
    ensures a == b
  {
    hide DayNumber;
    MicroFitsDay(a);
    MicroFitsDay(b);
    SameDay(a, b);
    SameMicro(a, b);
  }

  lemma MicroFitsDay(c: Civil)
    requires ValidCivil(c)
    ensures MicroOfDay(c) < MICROS_PER_DAY
  {
  }

  /** Without an offset the reading is UTC already; with an offset of some hours it is that many hours
      ahead of UTC: noon at +02:00 is ten o'clock. */
  lemma OffsetIsAhead(c: Civil, hours: int)
    requires ValidCivil(c) && 0 <= c.hour - hours <= 23
    ensures EnsureUtc(DateTime(c, None)) == c
    ensures UtcInstant(DateTime(c, Some(3600 * hours))) >= 0
    ensures EnsureUtc(DateTime(c, Some(3600 * hours))) == c.(hour := c.hour - hours)
  {
    hide DayNumber;
    var d := c.(hour := c.hour - hours);
    HoursLater(c, d);
    InstantIsInjective(EnsureUtc(DateTime(c, Some(3600 * hours))), d);
  }

  lemma HoursLater(c: Civil, d: Civil)
    requires ValidCivil(c) && ValidCivil(d) && d == c.(hour := d.hour)
    ensures Instant(c) - Instant(d) == (c.hour - d.hour) * 3600 * 1000000
  {
    hide DayNumber;
    assert DayNumber(c) == DayNumber(d) by { SameDateSameDay(c, d); }
  }

  // ---------------------------------------------------------------- the text

  /** The first field of a text, its mark, and the rest. */
  lemma FirstField(f: seq<nat>, layout: seq<Slot>)
    requires FitsLayout(f, layout) && f != []
    ensures var s, w := Encode(f, layout), layout[0].width;
            && |s| >= w + 1 && s[w] == layout[0].mark && Number(s[..w]) == Some(f[0])
            && FitsLayout(f[1..], layout[1..]) && s[w + 1..] == Encode(f[1..], layout[1..])
  {
    hide Pad, Number, Power10;
    var w := layout[0].width;
    NumberOfPad(f[0], w);
    assert Encode(f, layout)[..w] == Pad(f[0], w);
  }

  /** Date and time up to the minute's hour: where the first four fields are. */
  lemma DateShape(f: seq<nat>)
    requires FitsLayout(f, ISO_LAYOUT)
    ensures var s := Encode(f, ISO_LAYOUT);
            && |s| >= 14 && |f| == 7 && s[4] == '-' && s[7] == '-' && s[10] == 'T' && s[13] == ':'
            && Number(s[..4]) == Some(f[0]) && Number(s[5..7]) == Some(f[1])
            && Number(s[8..10]) == Some(f[2]) && Number(s[11..13]) == Some(f[3])
            && FitsLayout(f[4..], ISO_LAYOUT[4..]) && s[14..] == Encode(f[4..], ISO_LAYOUT[4..])
  {
    hide Encode, Number, FitsLayout;
    LengthOfLayout(f);
    var s := Encode(f, ISO_LAYOUT);
    FirstField(f, ISO_LAYOUT);
    FirstField(f[1..], ISO_LAYOUT[1..]);
    FirstField(f[1..][1..], ISO_LAYOUT[1..][1..]);
    FirstField(f[1..][1..][1..], ISO_LAYOUT[1..][1..][1..]);
    assert f[1..][1..][1..][1..] == f[4..] && ISO_LAYOUT[1..][1..][1..][1..] == ISO_LAYOUT[4..];
    assert s[5..][..2] == s[5..7] && s[5..][3..] == s[8..] && s[8..][..2] == s[8..10];
    assert s[8..][3..] == s[11..] && s[11..][..2] == s[11..13] && s[11..][3..] == s[14..];
  }

  lemma LengthOfLayout(f: seq<nat>)
    requires FitsLayout(f, ISO_LAYOUT)
    ensures |f| == 7
  {
  }

  /** The last three fields, and the end. */
  lemma TimeShape(f: seq<nat>)
    requires |f| == 3 && FitsLayout(f, ISO_LAYOUT[4..])
    ensures var s := Encode(f, ISO_LAYOUT[4..]);
            && |s| == 10 && s[2] == ':' && s[5] == '.' && s[9] == 'Z'
            && Number(s[..2]) == Some(f[0]) && Number(s[3..5]) == Some(f[1]) && Number(s[6..9]) == Some(f[2])
  {
    hide Encode, Number, FitsLayout;
    var s := Encode(f, ISO_LAYOUT[4..]);
    FirstField(f, ISO_LAYOUT[4..]);
    FirstField(f[1..], ISO_LAYOUT[4..][1..]);
    FirstField(f[1..][1..], ISO_LAYOUT[4..][1..][1..]);
    NothingEncoded(f[1..][1..][1..], ISO_LAYOUT[4..][1..][1..][1..]);
    assert s[3..][..2] == s[3..5] && s[3..][3..] == s[6..] && s[6..][..3] == s[6..9] && s[6..][4..] == s[10..];
  }

  lemma NothingEncoded(f: seq<nat>, layout: seq<Slot>)
    requires f == [] && FitsLayout(f, layout)
    ensures Encode(f, layout) == ""
  {
  }

  /** YYYY-MM-DDTHH:MM:SS.mmmZ, each number in its place. */
  lemma IsoShape(t: Moment)
    ensures var s := IsoOf(t);
            && |s| == 24 && s[4] == s[7] == '-' && s[10] == 'T' && s[13] == s[16] == ':' && s[19] == '.' && s[23] == 'Z'
            && Number(s[..4]) == Some(t.year) && Number(s[5..7]) == Some(t.month) && Number(s[8..10]) == Some(t.day)
            && Number(s[11..13]) == Some(t.hour) && Number(s[14..16]) == Some(t.minute)
            && Number(s[17..19]) == Some(t.second) && Number(s[20..23]) == Some(t.micro / 1000)
  {
    FieldsFit(t);
    hide Encode, Number, FitsLayout;
    var s, f := IsoOf(t), Fields(t);
    DateShape(f);
    TimeShape(f[4..]);
    assert s[14..][..2] == s[14..16] && s[14..][3..5] == s[17..19] && s[14..][6..9] == s[20..23];
    assert s[14..][2] == s[16] && s[14..][5] == s[19] && s[14..][9] == s[23];
  }

  /** Numbers are decimal, and zeros in front do not count. */
  lemma NumbersAreDecimal()
    ensures Number("08") == Some(8) && Number("70") == Some(70) && Number("4T") == None
  {
    hide Number;
    NoNumber();
    NumberOneMore("", '0');
    NumberOneMore("0", '8');
    NumberOneMore("", '7');
    NumberOneMore("7", '0');
    NumberOneMore("4", 'T');
    assert "" + ['0'] == "0" && "0" + ['8'] == "08" && "" + ['7'] == "7" && "7" + ['0'] == "70" && "4" + ['T'] == "4T";
  }

  lemma NoNumber()
    ensures Number("") == Some(0)
  {
  }

  lemma NumberOneMore(s: string, c: char)
    ensures Number(s + [c]) ==
      if Number(s).None? || !('0' <= c <= '9') then None else Some(Number(s).value * 10 + (c - '0') as nat)
  {
    assert (s + [c])[..|s|] == s;
  }
}
