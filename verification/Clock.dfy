/** How the queue's timestamps are written and in what order their fields and
    their text are. */
module Clock {
  import opened Text
  import opened Calendar

  const NANOS_PER_SECOND := 1_000_000_000
  const NANOS_PER_MILLI := 1_000_000

  datatype Stamp = Stamp(year: nat, month: nat, day: nat, hour: nat, minute: nat, second: nat)

  // ----- Writing a time -----

  /** The time since 1970-01-01 in nanoseconds; zero before it. */
  function Elapsed(time: int): nat {
    if time < 0 then 0 else time
  }

  function Seconds(time: int): nat {
    Elapsed(time) / NANOS_PER_SECOND
  }

  function SubsecMillis(time: int): nat {
    Elapsed(time) % NANOS_PER_SECOND / NANOS_PER_MILLI
  }

  function Year(time: int): int {
    CivilDate(Seconds(time) / 86400).year
  }

  function StampOf(time: int): Stamp {
    var days, rest := Seconds(time) / 86400, Seconds(time) % 86400;
    CivilCountsDays(days);
    var date := CivilDate(days);
    Stamp(date.year, date.month, date.day, rest / 3600, rest % 3600 / 60, rest % 60)
  }

  /** `YYYY-MM-DDTHH:MM:SS` and what follows the seconds. */
  function Rendered(s: Stamp, rest: string): string {
    Padded(s.year, 4) + AfterYear(s, rest)
  }

  function AfterYear(s: Stamp, rest: string): string {
    "-" + (Padded(s.month, 2) + ("-" + (Padded(s.day, 2) + ("T" + TimePart(s, rest)))))
  }

  function TimePart(s: Stamp, rest: string): string {
    Padded(s.hour, 2) + (":" + (Padded(s.minute, 2) + (":" + (Padded(s.second, 2) + rest))))
  }

  function Fraction(time: int): string {
    "." + Padded(SubsecMillis(time), 3) + "Z"
  }

  function Timestamp(time: int): string {
    Rendered(StampOf(time), Fraction(time))
  }

  // ----- Order -----

  predicate InRange(s: Stamp) {
    && 1 <= s.month <= 12 && 1 <= s.day <= 31
    && s.hour < 24 && s.minute < 60 && s.second < 60
  }

  predicate StampBefore(s: Stamp, t: Stamp) {
    if s.year != t.year then s.year < t.year
    else if s.month != t.month then s.month < t.month
    else if s.day != t.day then s.day < t.day
    else if s.hour != t.hour then s.hour < t.hour
    else if s.minute != t.minute then s.minute < t.minute
    else s.second < t.second
  }

  lemma Pow10s()
    ensures Pow10(2) == 100 && Pow10(3) == 1000 && Pow10(4) == 10000
  {
    assert Pow10(1) == 10;
    assert Pow10(2) == 10 * Pow10(1);
    assert Pow10(3) == 10 * Pow10(2);
    assert Pow10(4) == 10 * Pow10(3);
  }

  /** One field of the text decides the comparison, or the rest does. */
  lemma FieldDecides(m: nat, n: nat, width: nat, s: string, t: string)
    requires width >= 1 && m < Pow10(width) && n < Pow10(width)
    ensures Before(Padded(m, width) + s, Padded(n, width) + t) <==> m < n || (m == n && Before(s, t))
  {
    PaddedFits(m, width);
    PaddedFits(n, width);
    PaddedOrder(m, n, width);
    BeforeByField(Padded(m, width), Padded(n, width), s, t);
  }

  lemma SeparatorPasses(c: string, s: string, t: string)
    requires |c| == 1
    ensures Before(c + s, c + t) <==> Before(s, t)
  {
    BeforeByField(c, c, s, t);
    assert !Before(c[1..], c[1..]);
  }

  lemma TimePartOrder(s: Stamp, t: Stamp, x: string, y: string)
    requires InRange(s) && InRange(t)
    ensures Before(TimePart(s, x), TimePart(t, y)) <==>
      if s.hour != t.hour then s.hour < t.hour
      else if s.minute != t.minute then s.minute < t.minute
      else s.second < t.second || (s.second == t.second && Before(x, y))
  {
    Pow10s();
    var s3, t3 := Padded(s.second, 2) + x, Padded(t.second, 2) + y;
    FieldDecides(s.second, t.second, 2, x, y);
    SeparatorPasses(":", s3, t3);
    var s2, t2 := Padded(s.minute, 2) + (":" + s3), Padded(t.minute, 2) + (":" + t3);
    FieldDecides(s.minute, t.minute, 2, ":" + s3, ":" + t3);
    SeparatorPasses(":", s2, t2);
    FieldDecides(s.hour, t.hour, 2, ":" + s2, ":" + t2);
  }

  /** With years of the same number of digits the text compares as the
      fields do, then as what follows them. */
  lemma RenderedOrder(s: Stamp, t: Stamp, x: string, y: string)
    requires InRange(s) && InRange(t) && Digits(s.year) == Digits(t.year)
    ensures Before(Rendered(s, x), Rendered(t, y)) <==> StampBefore(s, t) || (s == t && Before(x, y))
  {
    Pow10s();
    var s6, t6 := TimePart(s, x), TimePart(t, y);
    TimePartOrder(s, t, x, y);
    SeparatorPasses("T", s6, t6);
    var s5, t5 := Padded(s.day, 2) + ("T" + s6), Padded(t.day, 2) + ("T" + t6);
    FieldDecides(s.day, t.day, 2, "T" + s6, "T" + t6);
    SeparatorPasses("-", s5, t5);
    var s4, t4 := Padded(s.month, 2) + ("-" + s5), Padded(t.month, 2) + ("-" + t5);
    FieldDecides(s.month, t.month, 2, "-" + s5, "-" + t5);
    SeparatorPasses("-", s4, t4);
    YearIsAField(s.year);
    YearIsAField(t.year);
    FieldDecides(s.year, t.year, Digits(s.year), "-" + s4, "-" + t4);
  }

  /** How many digits a year is written with. */
  function Digits(year: nat): (n: nat)
    ensures n >= 4
  {
    |Padded(year, 4)|
  }

  /** A year is a field of its own width. */
  lemma YearIsAField(year: nat)
    ensures year < Pow10(Digits(year)) && Padded(year, 4) == Padded(year, Digits(year))
  {
    NumberOfPadded(year, 4);
    PaddedOfNumber(Padded(year, 4));
  }

  lemma StampIsInRange(time: int)
    ensures InRange(StampOf(time))
  {
    CivilCountsDays(Seconds(time) / 86400);
  }

  lemma ClockOrder(r: nat, q: nat)
    requires r < 86400 && q < 86400
    ensures r < q <==>
      if r / 3600 != q / 3600 then r / 3600 < q / 3600
      else if r % 3600 / 60 != q % 3600 / 60 then r % 3600 / 60 < q % 3600 / 60
      else r % 60 < q % 60
  {
    assert r == 3600 * (r / 3600) + 60 * (r % 3600 / 60) + r % 60;
    assert q == 3600 * (q / 3600) + 60 * (q % 3600 / 60) + q % 60;
  }

  lemma StampOrder(time: int, other: int)
    ensures StampBefore(StampOf(time), StampOf(other)) <==> Seconds(time) < Seconds(other)
    ensures StampOf(time) == StampOf(other) <==> Seconds(time) == Seconds(other)
  {
    var m, n := Seconds(time) / 86400, Seconds(other) / 86400;
    var r, q := Seconds(time) % 86400, Seconds(other) % 86400;
    DateOrder(m, n);
    ClockOrder(r, q);
    ClockOrder(q, r);
  }

  lemma DateOrder(m: nat, n: nat)
    ensures Earlier(CivilDate(m), CivilDate(n)) <==> m < n
    ensures Earlier(CivilDate(n), CivilDate(m)) <==> n < m
    ensures CivilDate(m) == CivilDate(n) <==> m == n
  {
    CivilCountsDays(m);
    CivilCountsDays(n);
    if m < n {
      DateAfterKeepsOrder(m, n);
    } else if n < m {
      DateAfterKeepsOrder(n, m);
    }
  }

  /** The whole milliseconds of a time. */
  function Millis(time: int): nat {
    Elapsed(time) / NANOS_PER_MILLI
  }

  lemma MillisSplit(time: int)
    ensures Millis(time) == 1000 * Seconds(time) + SubsecMillis(time)
    ensures SubsecMillis(time) < 1000
  {
  }
}
