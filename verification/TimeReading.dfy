/** What a written time says, read off the text. */
module TimeReading {
  import opened Outcomes
  import opened Text
  import opened Calendar
  import opened Clock
  import opened EventTimes

  // ----- Timestamps -----

  /** The digits of `t` from `from` up to `to` are a number. */
  ghost predicate Says(t: string, from: nat, to: nat, n: int) {
    from <= to <= |t| && AllDigits(t[from..to]) && Number(t[from..to]) == n
  }

  /** `t` is laid out as a time with milliseconds and its fields are a date and
      a time of day. */
  ghost predicate Reads(t: string, d: Date, hour: nat, minute: nat, second: nat, millis: nat) {
    && |t| == 24 && t[4] == '-' && t[7] == '-' && t[10] == 'T' && t[13] == ':' && t[16] == ':'
    && t[19] == '.' && t[23] == 'Z'
    && Says(t, 0, 4, d.year) && Says(t, 5, 7, d.month) && Says(t, 8, 10, d.day)
    && Says(t, 11, 13, hour) && Says(t, 14, 16, minute) && Says(t, 17, 19, second) && Says(t, 20, 23, millis)
    && hour < 24 && minute < 60 && second < 60
  }

  /** Up to the year 9999 a timestamp is the date and the time of day of its
      instant, to the millisecond. */
  lemma TimestampIsTheInstant(time: nat)
    requires Year(time) <= 9999
    ensures exists d, hour, minute, second, millis ::
      Reads(Timestamp(time), d, hour, minute, second, millis) && IsAt(time, d, hour, minute, second, millis)
  {
    var s := StampOf(time);
    StampIsAt(time);
    TimestampReads(time);
    assert Reads(Timestamp(time), Date(s.year, s.month, s.day), s.hour, s.minute, s.second, SubsecMillis(time));
  }

  /** `time` is in this millisecond of that date. */
  ghost predicate IsAt(time: nat, d: Date, hour: nat, minute: nat, second: nat, millis: nat) {
    && IsDate(d) && d.year >= 1970
    && time / 1_000_000 == DayCount(d) * 86_400_000 + hour * 3_600_000 + minute * 60_000 + second * 1000 + millis
  }

  lemma StampIsAt(time: nat)
    ensures var s := StampOf(time);
      IsAt(time, Date(s.year, s.month, s.day), s.hour, s.minute, s.second, SubsecMillis(time))
  {
    var days := Seconds(time) / 86400;
    CivilCountsDays(days);
    MillisSplit(time);
    StampCounts(time);
    assert Millis(time) == time / 1_000_000;
  }

  lemma StampCounts(time: nat)
    ensures var s := StampOf(time);
      Seconds(time) / 86400 * 86400 + s.hour * 3600 + s.minute * 60 + s.second == Seconds(time)
  {
    ClockSplits(Seconds(time) % 86400);
  }

  lemma ClockSplits(rest: nat)
    ensures rest / 3600 * 3600 + rest % 3600 / 60 * 60 + rest % 60 == rest
  {
  }

  lemma TimestampReads(time: nat)
    requires Year(time) <= 9999
    ensures var s := StampOf(time);
      Reads(Timestamp(time), Date(s.year, s.month, s.day), s.hour, s.minute, s.second, SubsecMillis(time))
  {
    var s, millis, t := StampOf(time), SubsecMillis(time), Timestamp(time);
    StampIsInRange(time);
    MillisSplit(time);
    RenderedLayout(s, Fraction(time));
    Pow10s();
    PaddedFits(millis, 3);
    LaidOutReads(t, s, millis);
  }

  lemma LaidOutReads(t: string, s: Stamp, millis: nat)
    requires |t| == 24 && FitsShape(t, SHAPE) && t[19..] == "." + Padded(millis, 3) + "Z"
    requires InRange(s) && millis < 1000 && |Padded(s.year, 4)| == 4 && |Padded(millis, 3)| == 3
    requires t[0..4] == Padded(s.year, 4) && t[5..7] == Padded(s.month, 2) && t[8..10] == Padded(s.day, 2)
    requires t[11..13] == Padded(s.hour, 2) && t[14..16] == Padded(s.minute, 2) && t[17..19] == Padded(s.second, 2)
    ensures Reads(t, Date(s.year, s.month, s.day), s.hour, s.minute, s.second, millis)
  {
    assert SHAPE[4] == '-' && SHAPE[7] == '-' && SHAPE[10] == 'T' && SHAPE[13] == ':' && SHAPE[16] == ':';
    assert t[19] == t[19..][0] && t[23] == t[19..][4];
    assert t[20..23] == t[19..][1..4] == Padded(millis, 3);
    SaysPadded(t, 0, 4, s.year);
    SaysPadded(t, 5, 7, s.month);
    SaysPadded(t, 8, 10, s.day);
    SaysPadded(t, 11, 13, s.hour);
    SaysPadded(t, 14, 16, s.minute);
    SaysPadded(t, 17, 19, s.second);
    SaysPadded(t, 20, 23, millis);
  }

  lemma SaysPadded(t: string, from: nat, to: nat, n: nat)
    requires from <= to <= |t| && t[from..to] == Padded(n, to - from)
    ensures Says(t, from, to, n)
  {
    NumberOfPadded(n, to - from);
  }

  /** The first time of all. */
  lemma TimeZero()
    ensures Timestamp(0) == "1970-01-01T00:00:00.000Z"
  {
    SmallFields();
    StampOfZero();
    RenderedAlike(Stamp(1970, 1, 1, 0, 0, 0), ".000Z");
    Written("1970", "01", "00");
  }

  lemma StampOfZero()
    ensures StampOf(0) == Stamp(1970, 1, 1, 0, 0, 0) && Fraction(0) == "." + Padded(0, 3) + "Z"
  {
    CivilAtEpoch();
    assert Elapsed(0) == 0;
    var days, rest := Seconds(0) / 86400, Seconds(0) % 86400;
    assert days == 0 && rest == 0;
    assert CivilDate(days) == EPOCH;
  }

  lemma Written(year: string, one: string, zero: string)
    requires year == "1970" && one == "01" && zero == "00"
    ensures year + "-" + one + "-" + one + "T" + zero + ":" + zero + ":" + zero + ".000Z" == "1970-01-01T00:00:00.000Z"
  {
  }

  lemma RenderedAlike(s: Stamp, rest: string)
    ensures Rendered(s, rest) == Padded(s.year, 4) + "-" + Padded(s.month, 2) + "-" + Padded(s.day, 2) + "T" +
      Padded(s.hour, 2) + ":" + Padded(s.minute, 2) + ":" + Padded(s.second, 2) + rest
  {
    ClockJoins(Padded(s.hour, 2), Padded(s.minute, 2), Padded(s.second, 2), rest);
    DateJoins(Padded(s.year, 4), Padded(s.month, 2), Padded(s.day, 2), TimePart(s, rest));
    TimeJoins(Padded(s.year, 4) + "-" + Padded(s.month, 2) + "-" + Padded(s.day, 2) + "T", Padded(s.hour, 2),
              Padded(s.minute, 2), Padded(s.second, 2), rest);
  }

  lemma ClockJoins(hour: string, minute: string, second: string, rest: string)
    ensures hour + (":" + (minute + (":" + (second + rest)))) == hour + ":" + minute + ":" + second + rest
  {
  }

  lemma DateJoins(year: string, month: string, day: string, time: string)
    ensures year + ("-" + (month + ("-" + (day + ("T" + time))))) == year + "-" + month + "-" + day + "T" + time
  {
  }

  lemma TimeJoins(date: string, hour: string, minute: string, second: string, rest: string)
    ensures date + (hour + ":" + minute + ":" + second + rest) == date + hour + ":" + minute + ":" + second + rest
  {
  }

  lemma SmallFields()
    ensures Padded(1, 2) == "01" && Padded(0, 2) == "00" && Padded(0, 3) == "000" && Padded(1970, 4) == "1970"
  {
    assert Padded(0, 1) == "0" && Padded(1, 1) == "1";
    assert Padded(0, 2) == Padded(0, 1) + "0" && Padded(0, 3) == Padded(0, 2) + "0";
    assert Padded(1, 2) == Padded(0, 1) + "1";
    assert Padded(19, 2) == Padded(1, 1) + "9";
    assert Padded(197, 3) == Padded(19, 2) + "7";
    assert Padded(1970, 4) == Padded(197, 3) + "0";
  }

  // ----- Blanks around a text -----

  ghost predicate AllBlank(s: string) {
    forall i :: 0 <= i < |s| ==> IsBlank(s[i])
  }

  /** `t` is `s` without the blanks around it. */
  ghost predicate IsTrimmed(s: string, t: string) {
    && (t == [] || (!IsBlank(t[0]) && !IsBlank(t[|t| - 1])))
    && exists before, after :: s == before + t + after && AllBlank(before) && AllBlank(after)
  }

  lemma TrimIs(s: string)
    ensures IsTrimmed(s, Trim(s))
  {
    var before := TrimStartIs(s);
    var after := TrimEndIs(TrimStart(s));
    assert s == before + Trim(s) + after;
    if Trim(s) != [] {
      assert TrimStart(s)[0] == Trim(s)[0];
    }
  }

  lemma {:induction false} TrimStartIs(s: string) returns (before: string)
    ensures TrimStart(s) == [] || !IsBlank(TrimStart(s)[0])
    ensures s == before + TrimStart(s) && AllBlank(before)
  {
    before := [];
    if s != [] && IsBlank(s[0]) {
      before := TrimStartIs(s[1..]);
      before := [s[0]] + before;
    }
  }

  lemma {:induction false} TrimEndIs(s: string) returns (after: string)
    ensures TrimEnd(s) == [] || !IsBlank(TrimEnd(s)[|TrimEnd(s)| - 1])
    ensures s == TrimEnd(s) + after && AllBlank(after)
  {
    after := [];
    if s != [] && IsBlank(s[|s| - 1]) {
      after := TrimEndIs(s[..|s| - 1]);
      after := after + [s[|s| - 1]];
    }
  }

  // ----- `event_time` -----

  /** A time of the years 0000 to 9999 with any fraction, as `r`. */
  ghost predicate IsTime(r: string, s: Stamp, f: string) {
    && s.year <= 9999 && 1 <= s.month <= 12 && 1 <= s.day <= 31
    && s.hour <= 23 && s.minute <= 59 && s.second <= 59
    && (f == "" || (|f| >= 2 && f[0] == '.' && AllDigits(f[1..])))
    && r == Padded(s.year, 4) + "-" + Padded(s.month, 2) + "-" + Padded(s.day, 2) + "T" +
         Padded(s.hour, 2) + ":" + Padded(s.minute, 2) + ":" + Padded(s.second, 2) + f + "Z"
  }

  /** `t` asks for the time `r`: it is written out, lacks its `Z`, or is the
      date `r` is the midnight of. */
  ghost predicate AsksFor(t: string, r: string) {
    t == r || t + "Z" == r || t + "T00:00:00Z" == r
  }

  lemma IsTimeRenders(r: string, s: Stamp, f: string)
    ensures IsTime(r, s, f) <==> InRange(s) && s.year < 10000 && IsFraction(f) && r == Rendered(s, f + "Z")
  {
    RenderedAlike(s, f + "Z");
  }

  /** `event_time` answers `r` exactly when `r` is a time and the text without
      the blanks around it asks for it; otherwise it answers that text as its
      error. */
  lemma EventTimeExactly(text: string, r: string)
    ensures EventTime(text) == Ok(r) <==> (exists s, f :: IsTime(r, s, f)) && AsksFor(Trim(text), r)
    ensures EventTime(text).Err? ==> EventTime(text).error == Trim(text) && IsTrimmed(text, Trim(text))
  {
    TrimIs(text);
    TimesAreWellFormed(r);
    if WellFormed(r) {
      AskedTimeIsAnswered(text, r);
    }
  }

  lemma TimesAreWellFormed(r: string)
    ensures WellFormed(r) <==> exists s, f :: IsTime(r, s, f)
  {
    WellFormedIsRendered(r);
    if WellFormed(r) {
      var s: Stamp, f: string :| InRange(s) && s.year < 10000 && IsFraction(f) && r == Rendered(s, f + "Z");
      IsTimeRenders(r, s, f);
    }
    forall s, f | IsTime(r, s, f) ensures WellFormed(r) {
      IsTimeRenders(r, s, f);
    }
  }

  lemma AskedTimeIsAnswered(text: string, r: string)
    requires WellFormed(r)
    ensures AsksFor(Trim(text), r) <==> EventTime(text) == Ok(r)
  {
    var t := Trim(text);
    assert SHAPE[18] == 'd';
    if t + "Z" == r {
      assert t == r[..|r| - 1] && t != [];
      assert t[|t| - 1] == r[|r| - 2];
      if |r| > 20 {
        assert r[19..|r| - 1][|r| - 21] == r[|r| - 2];
      }
      assert t[|t| - 1] != 'Z';
    }
    if t + "T00:00:00Z" == r {
      assert r[|r| - 2] == "T00:00:00Z"[8];
      MidnightIsShort(t);
    }
  }

  /** A text made a time by a midnight is as long as a date. */
  lemma MidnightIsShort(t: string)
    requires WellFormed(t + "T00:00:00Z")
    ensures |t| == 10
  {
    var r := t + "T00:00:00Z";
    assert r[|t|] == 'T' && r[|t| + 3] == ':';
  }
}
