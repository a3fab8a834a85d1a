/** Instants and their two textual forms. An instant is a whole number of
    seconds since 1970-01-01 00:00:00; the scripts print instants with
    Python's `str(datetime)` / `strftime("%Y-%m-%d %H:%M:%S")` and send them in
    the HL7 TS/DTM form `strftime("%Y%m%d%H%M%S")`. */
module Clock {
  import opened Text

  const SecondsPerMinute: nat := 60
  const SecondsPerHour: nat := 3600
  const SecondsPerDay: nat := 86400

  /** `datetime(2000, 1, 1)`, the watermark used when no run was recorded. */
  const Epoch2000: nat := 946684800

  /** Year, month and day of the proleptic Gregorian calendar for a count of
      days since 1970-01-01. */
  datatype Date = Date(year: nat, month: nat, day: nat)

  function CivilDate(days: nat): (d: Date)
    ensures 1 <= d.month <= 12 && 1 <= d.day <= 31
  {
    var z := days + 719468;
    var era := z / 146097;
    var doe := z % 146097;
    YearOfEraBound(doe);
    var yoe := (doe - doe / 1460 + doe / 36524 - doe / 146096) / 365;
    DayOfYearBound(doe, yoe);
    var doy := doe - (365 * yoe + yoe / 4 - yoe / 100);
    MonthBound(doy);
    var mp := (5 * doy + 2) / 153;
    var day := doy - (153 * mp + 2) / 5 + 1;
    var month := if mp < 10 then mp + 3 else mp - 9;
    var year := yoe + era * 400 + (if month <= 2 then 1 else 0);
    Date(year, month, day)
  }

  /* The bounds of the intermediate quantities of `CivilDate`: year of era,
     day of year, and month and day (months counted from March). */

  lemma YearOfEraBound(doe: int)
    requires 0 <= doe < 146097
    ensures 0 <= (doe - doe / 1460 + doe / 36524 - doe / 146096) / 365 <= 399
  {
    var a := doe / 1460;
    var b := doe / 36524;
    var c := doe / 146096;
    assert b <= a && c <= 1;
    assert c == 1 ==> doe == 146096;
  }

  /** The day `d` of year `j` of four-year cycle `k` of century `c` of an era. */
  predicate EraPosition(c: int, k: int, j: int, d: int)
  {
    0 <= c <= 3 && 0 <= k <= 24 && 0 <= j <= 3 && 0 <= d <= 365 && (d == 365 ==> j == 3)
    && 1461 * k + 365 * j + d < 36524
  }

  /** The leap-day corrections of the year-of-era formula, at a position. */
  lemma CyclesOfEra(doe: int, c: int, k: int, j: int, d: int)
    requires EraPosition(c, k, j, d) && doe == 36524 * c + 1461 * k + 365 * j + d
    ensures (doe - doe / 1460 + doe / 36524 - doe / 146096) / 365 == 100 * c + 4 * k + j
  {
    var e := if 24 * c + k + 365 * j + d >= 1460 then 1 else 0;
    assert doe / 1460 == 25 * c + k + e;
    assert doe / 36524 == c && doe / 146096 == 0;
    assert doe - doe / 1460 + doe / 36524 - doe / 146096 == 36500 * c + 1460 * k + 365 * j + d - e;
  }

  lemma LeapYearsOfEra(c: int, k: int, j: int)
    requires 0 <= c <= 3 && 0 <= k <= 24 && 0 <= j <= 3
    ensures (100 * c + 4 * k + j) / 4 == 25 * c + k
    ensures (100 * c + 4 * k + j) / 100 == c
  {
  }

  /** Where a day of an era (not its very last day) falls. */
  lemma PositionInEra(doe: int) returns (c: int, k: int, j: int, d: int)
    requires 0 <= doe < 146096
    ensures EraPosition(c, k, j, d) && doe == 36524 * c + 1461 * k + 365 * j + d
  {
    c := doe / 36524;
    var r := doe % 36524;
    k := r / 1461;
    var s := r % 1461;
    j := if s / 365 > 3 then 3 else s / 365;
    d := s - 365 * j;
  }

  lemma DayOfYearBound(doe: int, yoe: int)
    requires 0 <= doe < 146097
    requires yoe == (doe - doe / 1460 + doe / 36524 - doe / 146096) / 365
    ensures 0 <= doe - (365 * yoe + yoe / 4 - yoe / 100) <= 365
  {
    if doe == 146096 {
      assert yoe == 399;
    } else {
      var c, k, j, d := PositionInEra(doe);
      CyclesOfEra(doe, c, k, j, d);
      LeapYearsOfEra(c, k, j);
    }
  }

  lemma MonthBound(doy: int)
    requires 0 <= doy <= 365
    ensures 0 <= (5 * doy + 2) / 153 <= 11
    ensures 1 <= doy - (153 * ((5 * doy + 2) / 153) + 2) / 5 + 1 <= 31
  {
  }

  /** The fields of an instant: year, month, day, hour, minute, second. */
  function Fields(t: nat): (f: seq<nat>)
    ensures |f| == 6
  {
    var d := CivilDate(t / SecondsPerDay);
    var s := t % SecondsPerDay;
    [d.year, d.month, d.day, s / SecondsPerHour, s % SecondsPerHour / SecondsPerMinute, s % SecondsPerMinute]
  }

  /** `"%Y-%m-%d %H:%M:%S"`. */
  function DateTimeText(t: nat): string
  {
    var f := Fields(t);
    Padded(f[0], 4) + "-" + Padded(f[1], 2) + "-" + Padded(f[2], 2) + " "
      + Padded(f[3], 2) + ":" + Padded(f[4], 2) + ":" + Padded(f[5], 2)
  }

  /** `"%Y%m%d%H%M%S"`. */
  function CompactText(t: nat): string
  {
    var f := Fields(t);
    Padded(f[0], 4) + Padded(f[1], 2) + Padded(f[2], 2) + Padded(f[3], 2) + Padded(f[4], 2) + Padded(f[5], 2)
  }

  /** What `strptime(s, "%Y-%m-%d %H:%M:%S")` is given by the scripts: four,
      two, two, two, two and two digits between the separators. */
  predicate WellFormedStamp(s: string)
  {
    && |s| == 19
    && s[4] == '-' && s[7] == '-' && s[10] == ' ' && s[13] == ':' && s[16] == ':'
    && AllDigits(s[0..4]) && AllDigits(s[5..7]) && AllDigits(s[8..10])
    && AllDigits(s[11..13]) && AllDigits(s[14..16]) && AllDigits(s[17..19])
  }

  /** The rendering of an instant is well formed and contains no HL7 or
      message separator. */
  lemma DateTimeTextWellFormed(t: nat)
    ensures WellFormedStamp(DateTimeText(t))
    ensures '|' !in DateTimeText(t) && '\n' !in DateTimeText(t) && '^' !in DateTimeText(t)
  {
    var s := DateTimeText(t);
    var f := Fields(t);
    assert s[0..4] == Padded(f[0], 4);
    assert s[5..7] == Padded(f[1], 2);
    assert s[8..10] == Padded(f[2], 2);
    assert s[11..13] == Padded(f[3], 2);
    assert s[14..16] == Padded(f[4], 2);
    assert s[17..19] == Padded(f[5], 2);
    forall i | 0 <= i < 19
      ensures s[i] != '|' && s[i] != '\n' && s[i] != '^'
    {
      if i < 4 { assert s[i] == s[0..4][i]; }
      else if 4 < i < 7 { assert s[i] == s[5..7][i - 5]; }
      else if 7 < i < 10 { assert s[i] == s[8..10][i - 8]; }
      else if 10 < i < 13 { assert s[i] == s[11..13][i - 11]; }
      else if 13 < i < 16 { assert s[i] == s[14..16][i - 14]; }
      else if 16 < i { assert s[i] == s[17..19][i - 17]; }
    }
  }

  /** `datetime.strptime(s, "%Y-%m-%d %H:%M:%S").strftime("%Y%m%d%H%M%S")`:
      the same digits without the separators. */
  function Hl7Stamp(s: string): (r: string)
    requires WellFormedStamp(s)
    ensures |r| == 14 && AllDigits(r)
  {
    var r := s[0..4] + s[5..7] + s[8..10] + s[11..13] + s[14..16] + s[17..19];
    assert forall i :: 0 <= i < 14 ==> IsDigit(r[i]) by {
      forall i | 0 <= i < 14 ensures IsDigit(r[i]) {
        if i < 4 { assert r[i] == s[0..4][i]; }
        else if i < 6 { assert r[i] == s[5..7][i - 4]; }
        else if i < 8 { assert r[i] == s[8..10][i - 6]; }
        else if i < 10 { assert r[i] == s[11..13][i - 8]; }
        else if i < 12 { assert r[i] == s[14..16][i - 10]; }
        else { assert r[i] == s[17..19][i - 12]; }
      }
    }
    r
  }

  /** The separators put back into a 14-digit HL7 stamp. */
  function StampText(r: string): (s: string)
    requires |r| == 14 && AllDigits(r)
    ensures WellFormedStamp(s)
  {
    var s := r[0..4] + "-" + r[4..6] + "-" + r[6..8] + " " + r[8..10] + ":" + r[10..12] + ":" + r[12..14];
    assert s[0..4] == r[0..4] && s[5..7] == r[4..6] && s[8..10] == r[6..8];
    assert s[11..13] == r[8..10] && s[14..16] == r[10..12] && s[17..19] == r[12..14];
    s
  }

  /** Reformatting loses nothing: putting the separators back gives the
      original text. */
  lemma StampRoundTrip(s: string)
    requires WellFormedStamp(s)
    ensures StampText(Hl7Stamp(s)) == s
  {
    var r := Hl7Stamp(s);
    var back := StampText(r);
    forall i | 0 <= i < 19 ensures back[i] == s[i] {
      if i < 4 { assert back[i] == r[i] == s[i]; }
      else if i == 4 || i == 7 || i == 10 || i == 13 || i == 16 { }
      else if i < 7 { assert back[i] == r[i - 1] == s[i]; }
      else if i < 10 { assert back[i] == r[i - 2] == s[i]; }
      else if i < 13 { assert back[i] == r[i - 3] == s[i]; }
      else if i < 16 { assert back[i] == r[i - 4] == s[i]; }
      else { assert back[i] == r[i - 5] == s[i]; }
    }
  }

  /** And every 14-digit stamp is the reformatting of exactly one text. */
  lemma Hl7StampRoundTrip(r: string)
    requires |r| == 14 && AllDigits(r)
    ensures Hl7Stamp(StampText(r)) == r
  {
    var back := Hl7Stamp(StampText(r));
    var s := StampText(r);
    forall i | 0 <= i < 14 ensures back[i] == r[i] {
      if i < 4 { assert back[i] == s[i]; }
      else if i < 6 { assert back[i] == s[i + 1]; }
      else if i < 8 { assert back[i] == s[i + 2]; }
      else if i < 10 { assert back[i] == s[i + 3]; }
      else if i < 12 { assert back[i] == s[i + 4]; }
      else { assert back[i] == s[i + 5]; }
    }
  }

  /** Parsing the printed form of an instant and printing it compactly is the
      same as printing it compactly directly. */
  lemma Hl7StampOfDateTime(t: nat)
    ensures WellFormedStamp(DateTimeText(t))
    ensures Hl7Stamp(DateTimeText(t)) == CompactText(t)
  {
    DateTimeTextWellFormed(t);
    var s := DateTimeText(t);
    var f := Fields(t);
    assert s[0..4] == Padded(f[0], 4);
    assert s[5..7] == Padded(f[1], 2);
    assert s[8..10] == Padded(f[2], 2);
    assert s[11..13] == Padded(f[3], 2);
    assert s[14..16] == Padded(f[4], 2);
    assert s[17..19] == Padded(f[5], 2);
  }

  /** The watermark default is the first second of the year 2000. */
  lemma Epoch2000Fields()
    ensures Fields(Epoch2000) == [2000, 1, 1, 0, 0, 0]
  {
    assert Epoch2000 == 10957 * SecondsPerDay;
    assert Epoch2000 / SecondsPerDay == 10957 && Epoch2000 % SecondsPerDay == 0;
    FirstDayOf2000();
  }

  /** Day 10957 after 1970-01-01 is 2000-01-01 (era 4, day 146037 of the
      era, year 399 of the era, day 306 of the year counted from March). */
  lemma FirstDayOf2000()
    ensures CivilDate(10957) == Date(2000, 1, 1)
  {
    var doe := 146037;
    assert 730425 / 146097 == 4 && 730425 % 146097 == doe;
    assert doe / 1460 == 100 && doe / 36524 == 3 && doe / 146096 == 0;
    assert 145940 / 365 == 399;
    assert 399 / 4 == 99 && 399 / 100 == 3;
    assert 1532 / 153 == 10 && 1532 / 5 == 306;
  }
}
