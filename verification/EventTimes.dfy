/** A `--since` or `--until` as a queue timestamp (`event_time`), and which
    texts `well_formed` takes. */
module EventTimes {
  import opened Outcomes
  import opened Text
  import opened Clock

  const SHAPE := "dddd-dd-ddTdd:dd:dd"

  predicate FitsShape(time: string, shape: string)
    requires |time| >= |shape|
  {
    forall i :: 0 <= i < |shape| ==> if shape[i] == 'd' then IsDigit(time[i]) else time[i] == shape[i]
  }

  function Field(time: string, from: nat, to: nat): nat
    requires from <= to <= |time| && AllDigits(time[from..to])
  {
    Number(time[from..to])
  }

  predicate IsFraction(f: string) {
    f == [] || (|f| > 1 && f[0] == '.' && AllDigits(f[1..]))
  }

  /** Whether `time` is `YYYY-MM-DDTHH:MM:SS[.f+]Z` with every field in range. */
  predicate WellFormed(time: string) {
    if |time| <= |SHAPE| || time[|time| - 1] != 'Z' || !FitsShape(time, SHAPE) then false
    else
      && IsFraction(time[19..|time| - 1])
      && 1 <= Field(time, 5, 7) <= 12
      && 1 <= Field(time, 8, 10) <= 31
      && Field(time, 11, 13) < 24
      && Field(time, 14, 16) < 60
      && Field(time, 17, 19) < 60
  }

  /** The queue timestamp of `text`, or nothing when it is not a UTC time. */
  function EventTime(text: string): Result<string, string> {
    var trimmed := Trim(text);
    var time :=
      if |trimmed| == 10 then trimmed + "T00:00:00Z"
      else if trimmed != [] && trimmed[|trimmed| - 1] == 'Z' then trimmed
      else trimmed + "Z";
    if WellFormed(time) then Ok(time) else Err(trimmed)
  }

  // ----- What `well_formed` takes -----

  lemma TwoDigitField(n: nat)
    requires n < 100
    ensures |Padded(n, 2)| == 2 && Number(Padded(n, 2)) == n
  {
    Pow10s();
    PaddedFits(n, 2);
    NumberOfPadded(n, 2);
  }

  /** A rendered time laid out field by field. */
  lemma RenderedLayout(s: Stamp, rest: string)
    requires InRange(s) && s.year < 10000
    ensures var t := Rendered(s, rest);
      && |t| == 19 + |rest| && FitsShape(t, SHAPE) && t[19..] == rest
      && t[0..4] == Padded(s.year, 4) && t[5..7] == Padded(s.month, 2) && t[8..10] == Padded(s.day, 2)
      && t[11..13] == Padded(s.hour, 2) && t[14..16] == Padded(s.minute, 2) && t[17..19] == Padded(s.second, 2)
  {
    Pow10s();
    PaddedFits(s.year, 4);
    TwoDigitField(s.month);
    TwoDigitField(s.day);
    TimePartLayout(s, rest);
    var t := Rendered(s, rest);
    var c := TimePart(s, rest);
    assert t[11..] == c;
    assert t[0..4] == Padded(s.year, 4) && t[5..7] == Padded(s.month, 2) && t[8..10] == Padded(s.day, 2);
    assert t[11..13] == c[0..2] && t[14..16] == c[3..5] && t[17..19] == c[6..8] && t[19..] == c[8..];
    FitsByFields(t, c);
  }

  lemma FitsByFields(t: string, c: string)
    requires |t| >= 19 && t[11..] == c && FitsShape(c, "dd:dd:dd")
    requires AllDigits(t[0..4]) && AllDigits(t[5..7]) && AllDigits(t[8..10])
    requires t[4] == '-' && t[7] == '-' && t[10] == 'T'
    ensures FitsShape(t, SHAPE)
  {
    forall i | 0 <= i < 19
      ensures if SHAPE[i] == 'd' then IsDigit(t[i]) else t[i] == SHAPE[i]
    {
      if i < 4 {
        assert t[i] == t[0..4][i];
      } else if 11 <= i {
        assert t[i] == c[i - 11] && SHAPE[i] == "dd:dd:dd"[i - 11];
      } else if 5 <= i < 7 {
        assert t[i] == t[5..7][i - 5];
      } else if 8 <= i < 10 {
        assert t[i] == t[8..10][i - 8];
      }
    }
  }

  lemma TimePartLayout(s: Stamp, rest: string)
    requires InRange(s)
    ensures var c := TimePart(s, rest);
      && |c| == 8 + |rest| && FitsShape(c, "dd:dd:dd") && c[8..] == rest
      && c[0..2] == Padded(s.hour, 2) && c[3..5] == Padded(s.minute, 2) && c[6..8] == Padded(s.second, 2)
  {
    TwoDigitField(s.hour);
    TwoDigitField(s.minute);
    TwoDigitField(s.second);
  }

  /** A text is well formed exactly when it is some time of the years 0000 to
      9999 written out, with any run of digits as the fraction. */
  lemma WellFormedIsRendered(time: string)
    ensures WellFormed(time) <==>
      exists s: Stamp, f: string :: InRange(s) && s.year < 10000 && IsFraction(f) && time == Rendered(s, f + "Z")
  {
    if WellFormed(time) {
      WellFormedRenders(time);
    }
    forall s: Stamp, f: string | InRange(s) && s.year < 10000 && IsFraction(f) && time == Rendered(s, f + "Z")
      ensures WellFormed(time)
    {
      RenderedIsWellFormed(s, f);
    }
  }

  lemma RenderedIsWellFormed(s: Stamp, f: string)
    requires InRange(s) && s.year < 10000 && IsFraction(f)
    ensures WellFormed(Rendered(s, f + "Z"))
  {
    RenderedLayout(s, f + "Z");
    LaidOutIsWellFormed(Rendered(s, f + "Z"), s, f);
  }

  lemma LaidOutIsWellFormed(t: string, s: Stamp, f: string)
    requires InRange(s) && IsFraction(f)
    requires |t| == 20 + |f| && FitsShape(t, SHAPE) && t[19..] == f + "Z"
    requires t[5..7] == Padded(s.month, 2) && t[8..10] == Padded(s.day, 2)
    requires t[11..13] == Padded(s.hour, 2) && t[14..16] == Padded(s.minute, 2) && t[17..19] == Padded(s.second, 2)
    ensures WellFormed(t)
  {
    TwoDigitField(s.month);
    TwoDigitField(s.day);
    TwoDigitField(s.hour);
    TwoDigitField(s.minute);
    TwoDigitField(s.second);
    assert t[|t| - 1] == t[19..][|f|] == 'Z';
    assert t[19..|t| - 1] == f;
  }

  function StampIn(time: string): Stamp
    requires |time| > 19 && FitsShape(time, SHAPE)
  {
    FieldsAreDigits(time);
    Stamp(Field(time, 0, 4), Field(time, 5, 7), Field(time, 8, 10),
          Field(time, 11, 13), Field(time, 14, 16), Field(time, 17, 19))
  }

  lemma FieldsAreDigits(time: string)
    requires |time| > 19 && FitsShape(time, SHAPE)
    ensures AllDigits(time[0..4]) && AllDigits(time[5..7]) && AllDigits(time[8..10])
    ensures AllDigits(time[11..13]) && AllDigits(time[14..16]) && AllDigits(time[17..19])
  {
    forall i | 0 <= i < 19 && SHAPE[i] == 'd' ensures IsDigit(time[i]) {
    }
  }

  lemma WellFormedRenders(time: string)
    requires WellFormed(time)
    ensures var s, f := StampIn(time), time[19..|time| - 1];
      InRange(s) && s.year < 10000 && IsFraction(f) && time == Rendered(s, f + "Z")
  {
    var s, f := StampIn(time), time[19..|time| - 1];
    FieldsReadBack(time);
    RenderedLayout(s, f + "Z");
    SameLayout(time, Rendered(s, f + "Z"));
  }

  /** The fields of a well formed text, written out again. */
  lemma FieldsReadBack(time: string)
    requires WellFormed(time)
    ensures var s := StampIn(time);
      && InRange(s) && s.year < 10000
      && time[0..4] == Padded(s.year, 4) && time[5..7] == Padded(s.month, 2) && time[8..10] == Padded(s.day, 2)
      && time[11..13] == Padded(s.hour, 2) && time[14..16] == Padded(s.minute, 2)
      && time[17..19] == Padded(s.second, 2)
  {
    FieldsAreDigits(time);
    Pow10s();
    PaddedOfNumber(time[0..4]);
    TwoDigitsReadBack(time[5..7]);
    TwoDigitsReadBack(time[8..10]);
    TwoDigitsReadBack(time[11..13]);
    TwoDigitsReadBack(time[14..16]);
    TwoDigitsReadBack(time[17..19]);
  }

  lemma TwoDigitsReadBack(field: string)
    requires |field| == 2 && AllDigits(field)
    ensures Padded(Number(field), 2) == field
  {
    PaddedOfNumber(field);
  }

  lemma SameLayout(t: string, u: string)
    requires |t| > 19 && |t| == |u| && FitsShape(t, SHAPE) && FitsShape(u, SHAPE)
    requires t[0..4] == u[0..4] && t[5..7] == u[5..7] && t[8..10] == u[8..10]
    requires t[11..13] == u[11..13] && t[14..16] == u[14..16] && t[17..19] == u[17..19]
    requires t[19..] == u[19..]
    ensures t == u
  {
    assert SHAPE[4] == '-' && SHAPE[7] == '-' && SHAPE[10] == 'T' && SHAPE[13] == ':' && SHAPE[16] == ':';
    SameParts(t, u, 0, 4, 5);
    SameParts(t, u, 5, 7, 8);
    SameParts(t, u, 8, 10, 11);
    SameParts(t, u, 11, 13, 14);
    SameParts(t, u, 14, 16, 17);
    assert t == t[..17] + t[17..19] + t[19..] && u == u[..17] + u[17..19] + u[19..];
  }

  /** Texts that agree up to a field agree past it and its separator. */
  lemma SameParts(t: string, u: string, from: nat, to: nat, next: nat)
    requires from <= to < next == to + 1 <= |t| == |u|
    requires t[..from] == u[..from] && t[from..to] == u[from..to] && t[to] == u[to]
    ensures t[..next] == u[..next]
  {
    assert t[..next] == t[..from] + t[from..to] + [t[to]] && u[..next] == u[..from] + u[from..to] + [u[to]];
  }

  // ----- Reading back -----

  lemma TrimKeeps(s: string)
    requires s != [] && !IsBlank(s[0]) && !IsBlank(s[|s| - 1])
    ensures Trim(s) == s
  {
  }

  lemma WellFormedStaysPut(time: string)
    requires WellFormed(time)
    ensures EventTime(time) == Ok(time)
  {
    assert SHAPE[0] == 'd';
    assert IsDigit(time[0]);
    TrimKeeps(time);
  }

  /** What `event_time` answers, it answers unchanged when asked again. */
  lemma EventTimeIsStable(text: string)
    requires EventTime(text).Ok?
    ensures WellFormed(EventTime(text).value)
    ensures EventTime(EventTime(text).value) == EventTime(text)
  {
    WellFormedStaysPut(EventTime(text).value);
  }

  /** A timestamp is read back unchanged exactly up to the year 9999. */
  lemma TimestampReadsBack(time: int)
    ensures WellFormed(Timestamp(time)) <==> Year(time) <= 9999
    ensures EventTime(Timestamp(time)) == Ok(Timestamp(time)) <==> Year(time) <= 9999
    ensures Year(time) > 9999 ==> EventTime(Timestamp(time)).Err?
  {
    var s, t := StampOf(time), Timestamp(time);
    StampIsInRange(time);
    if s.year < 10000 {
      var f := "." + Padded(SubsecMillis(time), 3);
      assert f[1..] == Padded(SubsecMillis(time), 3);
      RenderedIsWellFormed(s, f);
      WellFormedStaysPut(t);
    } else {
      LongYearMisfits(s, Fraction(time));
      TrimKeeps(t);
    }
  }

  lemma LongYearMisfits(s: Stamp, rest: string)
    requires s.year >= 10000 && rest != [] && rest[|rest| - 1] == 'Z'
    ensures var t := Rendered(s, rest);
      |t| > 19 && t[|t| - 1] == 'Z' && IsDigit(t[0]) && !FitsShape(t, SHAPE)
  {
    var t := Rendered(s, rest);
    Pow10s();
    PaddedFits(s.year, 4);
    assert t[4] == Padded(s.year, 4)[4];
    assert SHAPE[4] == '-';
    assert |TimePart(s, rest)| >= 8 && TimePart(s, rest)[|TimePart(s, rest)| - 1] == 'Z';
    assert |AfterYear(s, rest)| >= 15;
  }
}
