/** When the text of timestamps is in the order of time. */
module TimestampOrder {
  import opened Text
  import opened Calendar
  import opened Clock

  // ----- Years of one length -----

  /** Times whose years have the same number of digits are written in the
      order of time, to the millisecond. */
  lemma SameDigitsInOrder(time: int, other: int)
    requires Digits(Year(time)) == Digits(Year(other))
    ensures Before(Timestamp(time), Timestamp(other)) <==> Millis(time) < Millis(other)
  {
    StampIsInRange(time);
    StampIsInRange(other);
    StampOrder(time, other);
    MillisSplit(time);
    MillisSplit(other);
    FractionOrder(SubsecMillis(time), SubsecMillis(other));
    RenderedOrder(StampOf(time), StampOf(other), Fraction(time), Fraction(other));
  }

  lemma FractionOrder(m: nat, n: nat)
    requires m < 1000 && n < 1000
    ensures Before("." + Padded(m, 3) + "Z", "." + Padded(n, 3) + "Z") <==> m < n
  {
    Pow10s();
    FieldDecides(m, n, 3, "Z", "Z");
    assert !Before("Z"[1..], "Z"[1..]);
    SeparatorPasses(".", Padded(m, 3) + "Z", Padded(n, 3) + "Z");
    assert "." + (Padded(m, 3) + "Z") == "." + Padded(m, 3) + "Z";
    assert "." + (Padded(n, 3) + "Z") == "." + Padded(n, 3) + "Z";
  }

  lemma FourDigitYears(year: nat)
    ensures Digits(year) == 4 <==> year <= 9999
  {
    Pow10s();
    PaddedFits(year, 4);
  }

  /** Up to the year 9999 the text of timestamps is in the order of time, to
      the millisecond. */
  lemma TextOrderIsTimeOrder(time: int, other: int)
    ensures Year(time) <= 9999 && Year(other) <= 9999 ==>
      (Before(Timestamp(time), Timestamp(other)) <==> Millis(time) < Millis(other))
  {
    FourDigitYears(Year(time));
    FourDigitYears(Year(other));
    if Year(time) <= 9999 && Year(other) <= 9999 {
      SameDigitsInOrder(time, other);
    }
  }

  /** A year without its last `rest` digits. */
  function Leading(year: nat, rest: nat): nat {
    if rest == 0 then year else Leading(year / 10, rest - 1)
  }

  lemma {:induction false} NumberOfLeading(s: string, rest: nat)
    requires AllDigits(s) && rest <= |s|
    ensures Number(s[..|s| - rest]) == Leading(Number(s), rest)
    decreases rest
  {
    if rest == 0 {
      assert s[..|s|] == s;
    } else {
      var init := s[..|s| - 1];
      NumberOfLeading(init, rest - 1);
      assert init[..|init| - (rest - 1)] == s[..|s| - rest];
      assert Number(s) / 10 == Number(init);
    }
  }

  /** A field with the separator after it against a longer run of digits: the
      separator is before every digit. */
  lemma SeparatedBeforeDigits(f: string, s: string, front: string, back: string)
    requires |f| == |front| && s != "" && s[0] == '-' && back != "" && IsDigit(back[0])
    ensures Before(f + s, front + back) <==> Before(f, front) || f == front
    ensures Before(front + back, f + s) <==> Before(front, f)
  {
    BeforeByField(f, front, s, back);
    BeforeByField(front, f, back, s);
  }

  /** A shorter year is written before a longer one exactly when it is not
      past the longer one's leading digits. */
  lemma ShorterYearFirst(y: nat, z: nat, s: string, t: string)
    requires Digits(y) < Digits(z) && s != "" && s[0] == '-'
    ensures Before(Padded(y, 4) + s, Padded(z, 4) + t) <==> y <= Leading(z, Digits(z) - Digits(y))
    ensures Before(Padded(z, 4) + t, Padded(y, 4) + s) <==> y > Leading(z, Digits(z) - Digits(y))
  {
    var w, long := Digits(y), Padded(z, 4);
    var front, back := long[..w], long[w..] + t;
    assert back[0] == long[w];
    SplitLong(long, w, t);
    SeparatedBeforeDigits(Padded(y, 4), s, front, back);
    LeadingAgainst(y, z);
  }

  lemma SplitLong(long: string, w: nat, t: string)
    requires w <= |long|
    ensures long + t == long[..w] + (long[w..] + t)
  {
  }

  lemma LeadingAgainst(y: nat, z: nat)
    requires Digits(y) < Digits(z)
    ensures var (w, front) := (Digits(y), Padded(z, 4)[..Digits(y)]);
      && (Before(Padded(y, 4), front) <==> y < Leading(z, Digits(z) - w))
      && (Padded(y, 4) == front <==> y == Leading(z, Digits(z) - w))
      && (Before(front, Padded(y, 4)) <==> Leading(z, Digits(z) - w) < y)
  {
    var w, p := Digits(y), Leading(z, Digits(z) - Digits(y));
    LeadingIsAField(z, w);
    YearIsAField(y);
    PaddedOrder(y, p, w);
    PaddedOrder(p, y, w);
  }

  lemma LeadingIsAField(z: nat, w: nat)
    requires 1 <= w < Digits(z)
    ensures var p := Leading(z, Digits(z) - w); p < Pow10(w) && Padded(z, 4)[..w] == Padded(p, w)
  {
    NumberOfPadded(z, 4);
    FrontIsAField(Padded(z, 4), w);
  }

  lemma FrontIsAField(long: string, w: nat)
    requires AllDigits(long) && 1 <= w < |long|
    ensures var p := Leading(Number(long), |long| - w); p < Pow10(w) && long[..w] == Padded(p, w)
  {
    NumberOfLeading(long, |long| - w);
    PaddedOfNumber(long[..w]);
  }

  lemma {:induction false} PaddedShort(n: nat, width: nat, most: nat)
    requires width <= most && 1 <= most && n < Pow10(most)
    ensures |Padded(n, width)| <= most
    decreases most
  {
    if most == 1 {
      assert Pow10(1) == 10 * Pow10(0) == 10;
    } else if !(n < 10 && width <= 1) {
      assert Pow10(most) == 10 * Pow10(most - 1);
      PaddedShort(n / 10, if width == 0 then 0 else width - 1, most - 1);
    }
  }

  lemma FewerDigitsEarlier(y: nat, z: nat)
    requires Digits(y) < Digits(z)
    ensures y < z
  {
    YearIsAField(y);
    if z < Pow10(Digits(y)) {
      PaddedShort(z, 4, Digits(y));
    }
  }

  lemma YearFirst(time: int) returns (after: string)
    ensures Timestamp(time) == Padded(Year(time), 4) + after && after != "" && after[0] == '-'
  {
    after := AfterYear(StampOf(time), Fraction(time));
  }

  /** Whether a time of year `y` is written before one of year `z`: by the
      time itself when the years are of one length. */
  predicate WrittenFirst(y: nat, z: nat, earlier: bool) {
    if Digits(y) == Digits(z) then earlier
    else if Digits(y) < Digits(z) then y <= Leading(z, Digits(z) - Digits(y))
    else z > Leading(y, Digits(y) - Digits(z))
  }

  lemma YearsDecide(y: nat, z: nat, s: string, t: string, earlier: bool)
    requires s != "" && s[0] == '-' && t != "" && t[0] == '-'
    requires Digits(y) == Digits(z) ==> (Before(Padded(y, 4) + s, Padded(z, 4) + t) <==> earlier)
    ensures Before(Padded(y, 4) + s, Padded(z, 4) + t) <==> WrittenFirst(y, z, earlier)
  {
    if Digits(y) < Digits(z) {
      ShorterYearFirst(y, z, s, t);
    } else if Digits(z) < Digits(y) {
      ShorterYearFirst(z, y, t, s);
    }
  }

  /** Where two timestamps stand as text, whatever their years. */
  lemma TextOrder(time: int, other: int)
    ensures Before(Timestamp(time), Timestamp(other)) <==>
      WrittenFirst(Year(time), Year(other), Millis(time) < Millis(other))
  {
    var s := YearFirst(time);
    var t := YearFirst(other);
    if Digits(Year(time)) == Digits(Year(other)) {
      SameDigitsInOrder(time, other);
    }
    YearsDecide(Year(time), Year(other), s, t, Millis(time) < Millis(other));
  }

  lemma EarlierYear(time: int, other: int)
    requires Year(time) < Year(other)
    ensures Millis(time) < Millis(other)
  {
    StampOrder(time, other);
    MillisSplit(time);
    MillisSplit(other);
  }

  /** Two years have the same number of digits, or the shorter one is not past
      the leading digits of the longer one. */
  predicate YearsAgree(y: nat, z: nat) {
    || Digits(y) == Digits(z)
    || (Digits(y) < Digits(z) && y <= Leading(z, Digits(z) - Digits(y)))
    || (Digits(y) > Digits(z) && z <= Leading(y, Digits(y) - Digits(z)))
  }

  /** The text of two timestamps is in the order of time exactly when their
      years have the same number of digits, or the shorter one is not past the
      leading digits of the longer one. */
  lemma TextOrderHoldsExactly(time: int, other: int)
    ensures (Before(Timestamp(time), Timestamp(other)) <==> Millis(time) < Millis(other)) <==>
      YearsAgree(Year(time), Year(other))
  {
    var y, z := Year(time), Year(other);
    TextOrder(time, other);
    if Digits(y) < Digits(z) {
      FewerDigitsEarlier(y, z);
      EarlierYear(time, other);
    } else if Digits(z) < Digits(y) {
      FewerDigitsEarlier(z, y);
      EarlierYear(other, time);
    }
  }

  // ----- Times it fails for -----

  /** The midnight that starts a date. */
  function Midnight(d: Date): (time: nat)
    requires IsDate(d) && d.year >= 1970
  {
    CivilIsInverse(d);
    DayCount(d) * 86400 * NANOS_PER_SECOND
  }

  lemma MidnightIsOfItsYear(d: Date)
    requires IsDate(d) && d.year >= 1970
    ensures Year(Midnight(d)) == d.year
  {
    CivilIsInverse(d);
    assert Seconds(Midnight(d)) == DayCount(d) * 86400;
  }

  /** The first midnight of the year 10000 is written before the first time of
      all, 1970-01-01. */
  lemma Year10000IsWrittenFirst()
    ensures var time := Midnight(Date(10000, 1, 1));
      && Year(time) == 10000 && Millis(0) < Millis(time) && Before(Timestamp(time), Timestamp(0))
  {
    var time := Midnight(Date(10000, 1, 1));
    MidnightIsOfItsYear(Date(10000, 1, 1));
    TimeZeroIsIn1970();
    EarlierYear(0, time);
    TextOrder(time, 0);
    LongYearIsWrittenFirst();
  }

  lemma TimeZeroIsIn1970()
    ensures Year(0) == 1970
  {
    assert Seconds(0) / 86400 == 0;
    CivilAtEpoch();
  }

  lemma LongYearIsWrittenFirst()
    ensures WrittenFirst(10000, 1970, false)
  {
    FourDigitYears(1970);
    FiveDigits();
    assert Leading(10000, 1) == Leading(1000, 0) == 1000;
  }

  lemma FiveDigits()
    ensures Digits(10000) == 5 && Pow10(1) == 10
  {
    Pow10s();
    FourDigitYears(10000);
    assert Pow10(5) == 10 * Pow10(4) == 100000;
    PaddedShort(10000, 4, 5);
  }
}
