/** What parse_discord_timestamp promises: which texts it rejects, that stray digits
    before the offset are ignored, that a formatted instant reads back as its epoch
    second, and how truncation, microseconds and the offset move the result. */
module TimestampProperties {
  import opened Common
  import opened DiscordTimestamp

  // ---------------------------------------------------------------------------
  // Uniqueness of the scanning helpers
  // ---------------------------------------------------------------------------

  lemma RunEndIs(s: string, i: nat, j: nat)
    requires i <= j <= |s|
    requires forall k :: i <= k < j ==> InRunClass(s[k])
    requires j == |s| || !InRunClass(s[j])
    ensures RunEnd(s, i) == j
  {
  }

  lemma LastPlusIs(s: string, lo: nat, hi: nat, p: nat)
    requires lo <= p < hi <= |s| && s[p] == '+'
    requires forall k :: p < k < hi ==> s[k] != '+'
    ensures LastPlus(s, lo, hi) == Some(p)
  {
  }

  lemma LineEndIs(s: string, i: nat, j: nat)
    requires i <= j <= |s|
    requires forall k :: i <= k < j ==> s[k] != '\n'
    requires j == |s| || s[j] == '\n'
    ensures LineEnd(s, i) == j
  {
  }

  // ---------------------------------------------------------------------------
  // What the match and strptime accept
  // ---------------------------------------------------------------------------

  /** The anchored match: group 1 is the first 26 characters, group 2 starts at the last
      '+' of the run of [\d+] that follows and ends before the first line feed; without a
      '+' in that run there is no match. */
  lemma MatchGroupsCharacterised(s: string)
    ensures MatchGroups(s).Some? ==> Group1Shape(s) && MatchGroups(s).value.dateTime == s[..26]
    ensures MatchGroups(s).Some? ==>
      var p := MatchGroups(s).value.offsetStart;
      26 <= p < RunEnd(s, 26) && s[p] == '+' &&
      (forall k :: p < k < RunEnd(s, 26) ==> s[k] != '+') &&
      MatchGroups(s).value.offset == s[p..LineEnd(s, p)]
    ensures MatchGroups(s).None? <==>
      !Group1Shape(s) || forall k :: 26 <= k < RunEnd(s, 26) ==> s[k] != '+'
  {
  }

  /** strptime accepts exactly a valid civil date-time with an offset `%z` reads and that
      is less than a day, and yields those fields and that offset. */
  lemma StrptimeAccepts(t: string)
    requires Group1Shape(t)
    ensures Strptime(t).Ok? <==>
      ValidDateTime(FieldsOf(t)) && ParseUtcOffset(t[26..]).Some? &&
      -DayMicros < ParseUtcOffset(t[26..]).value < DayMicros
    ensures Strptime(t).Ok? ==> Strptime(t).value == Stamp(FieldsOf(t), ParseUtcOffset(t[26..]).value)
    ensures Strptime(t).Err? ==> Strptime(t).error == StrptimeRejected
  {
  }

  // ---------------------------------------------------------------------------
  // Rejections
  // ---------------------------------------------------------------------------

  /** A successful parse exposes exactly the validated fields and offset of the text. */
  lemma AcceptedStampIsValid(s: string)
    requires ParseStamp(s).Ok?
    ensures Group1Shape(s) && MatchGroups(s).Some?
    ensures ParseStamp(s).value.dateTime == FieldsOf(s) && ValidDateTime(FieldsOf(s))
    ensures ParseUtcOffset(MatchGroups(s).value.offset) == Some(ParseStamp(s).value.offset)
    ensures 0 <= ParseStamp(s).value.offset < DayMicros
  {
    var g := MatchGroups(s).value;
    var t := g.dateTime + g.offset;
    assert t[..26] == s[..26];
    assert t[26..] == g.offset;
    assert g.offset[0] == '+';
  }

  /** Fewer than six fractional digits (or a text too short for the first group): no match. */
  lemma ShortFractionRejected(s: string)
    requires |s| < 26 || exists i :: 20 <= i < 26 && !IsDigit(s[i])
    ensures ParseDiscordTimestamp(s) == Err(PatternMismatch)
  {
    if |s| >= 26 {
      var i :| 20 <= i < 26 && !IsDigit(s[i]);
      assert !FitsGroup1(i, s[i]);
    }
  }

  /** No '+' after the first group (a "-05:00" offset, or none at all): no match. */
  lemma NoPlusOffsetRejected(s: string)
    requires forall k :: 26 <= k < |s| ==> s[k] != '+'
    ensures ParseDiscordTimestamp(s) == Err(PatternMismatch)
  {
  }

  /** An out-of-range month, day, hour, minute or second, or year 0000: strptime refuses. */
  lemma OutOfRangeFieldRejected(s: string)
    requires Group1Shape(s) && !ValidDateTime(FieldsOf(s))
    ensures ParseDiscordTimestamp(s).Err?
  {
    if ParseStamp(s).Ok? { AcceptedStampIsValid(s); }
  }

  /** An offset that `%z` cannot read, or one of 24 hours or more: strptime refuses. */
  lemma BadOffsetRejected(s: string)
    requires MatchGroups(s).Some?
    requires var z := ParseUtcOffset(MatchGroups(s).value.offset); z.None? || z.value >= DayMicros
    ensures ParseDiscordTimestamp(s) == Err(StrptimeRejected)
  {
    if ParseStamp(s).Ok? { AcceptedStampIsValid(s); }
  }

  // ---------------------------------------------------------------------------
  // Stray digits between the microseconds and the offset
  // ---------------------------------------------------------------------------

  /** The text with the stray run removed, seen from the text with it: same first group,
      and every position from 26 on shifted by the run's length. */
  predicate ShiftedBy(s1: string, s2: string, n: nat)
  {
    |s1| == |s2| + n && |s2| >= 26 &&
    (forall k :: 0 <= k < 26 ==> s1[k] == s2[k]) &&
    (forall k :: 26 <= k < 26 + n ==> InRunClass(s1[k])) &&
    (forall k :: 26 <= k < |s2| ==> s1[k + n] == s2[k])
  }

  lemma ShiftedRunEnd(s1: string, s2: string, n: nat)
    requires ShiftedBy(s1, s2, n)
    ensures RunEnd(s1, 26) == RunEnd(s2, 26) + n
  {
    var r2 := RunEnd(s2, 26);
    assert forall k :: 26 + n <= k < r2 + n ==> s1[k] == s2[k - n];
    RunEndIs(s1, 26, r2 + n);
  }

  lemma ShiftedLineEnd(s1: string, s2: string, n: nat, p2: nat)
    requires ShiftedBy(s1, s2, n) && 26 <= p2 <= |s2|
    ensures LineEnd(s1, p2 + n) == LineEnd(s2, p2) + n
    ensures s1[p2 + n..LineEnd(s1, p2 + n)] == s2[p2..LineEnd(s2, p2)]
  {
    var e2 := LineEnd(s2, p2);
    assert forall k :: p2 + n <= k < e2 + n ==> s1[k] == s2[k - n];
    LineEndIs(s1, p2 + n, e2 + n);
    assert s1[p2 + n..e2 + n] == s2[p2..e2];
  }

  lemma ShiftedOffset(s1: string, s2: string, n: nat, p2: nat)
    requires ShiftedBy(s1, s2, n)
    requires 26 <= p2 < RunEnd(s2, 26) && s2[p2] == '+'
    requires forall k :: p2 < k < RunEnd(s2, 26) ==> s2[k] != '+'
    ensures RunEnd(s1, 26) == RunEnd(s2, 26) + n
    ensures LastPlus(s1, 26, RunEnd(s1, 26)) == Some(p2 + n)
  {
    var r2 := RunEnd(s2, 26);
    ShiftedRunEnd(s1, s2, n);
    assert forall k :: p2 + n <= k < r2 + n ==> s1[k] == s2[k - n];
    LastPlusIs(s1, 26, r2 + n, p2 + n);
  }

  lemma ShiftedMatch(s1: string, s2: string, n: nat)
    requires ShiftedBy(s1, s2, n) && |s2| > 26 && s2[26] == '+'
    ensures MatchGroups(s1).Some? == MatchGroups(s2).Some?
    ensures MatchGroups(s2).Some? ==>
      MatchGroups(s1).value.dateTime == MatchGroups(s2).value.dateTime &&
      MatchGroups(s1).value.offset == MatchGroups(s2).value.offset
  {
    assert s1[..26] == s2[..26];
    assert Group1Shape(s1) == Group1Shape(s2) by {
      assert forall k :: 0 <= k < 26 ==> s1[k] == s2[k];
    }
    if Group1Shape(s2) {
      assert InRunClass(s2[26]);
      var m2 := MatchGroups(s2);
      assert m2.Some?;
      ShiftedOffset(s1, s2, n, m2.value.offsetStart);
      ShiftedLineEnd(s1, s2, n, m2.value.offsetStart);
    }
  }

  /** parse_discord_timestamp reads nothing but the two groups. */
  lemma SameGroupsSameResult(s1: string, s2: string)
    requires MatchGroups(s1).Some? == MatchGroups(s2).Some?
    requires MatchGroups(s2).Some? ==>
      MatchGroups(s1).value.dateTime == MatchGroups(s2).value.dateTime &&
      MatchGroups(s1).value.offset == MatchGroups(s2).value.offset
    ensures ParseDiscordTimestamp(s1) == ParseDiscordTimestamp(s2)
  {
  }

  /** Only group 1 and group 2 are rejoined: whatever run of digits and '+' stands between
      the six fractional digits and the offset, the result is that of the text without it. */
  lemma ExtraDigitsIgnored(head: string, extra: string, tail: string)
    requires |head| == 26
    requires forall k :: 0 <= k < |extra| ==> InRunClass(extra[k])
    requires tail != [] && tail[0] == '+'
    ensures ParseDiscordTimestamp(head + extra + tail) == ParseDiscordTimestamp(head + tail)
  {
    var s1, s2 := head + extra + tail, head + tail;
    assert ShiftedBy(s1, s2, |extra|);
    ShiftedMatch(s1, s2, |extra|);
    SameGroupsSameResult(s1, s2);
  }

  // ---------------------------------------------------------------------------
  // Formatting an instant, and reading it back
  // ---------------------------------------------------------------------------

  /** Zero-padded decimal numeral of exactly `width` digits. */
  function Pad(n: nat, width: nat): (s: string)
    requires n < Pow10(width)
    ensures |s| == width && AllDigits(s) && DigitsValue(s) == n
  {
    if width == 0 then []
    else
      var s := Pad(n / 10, width - 1) + [DigitChar(n % 10)];
      assert s[..|s| - 1] == Pad(n / 10, width - 1);
      s
  }

  lemma PadTwo(n: nat)
    requires n < 100
    ensures Pad(n, 2) == [DigitChar(n / 10), DigitChar(n % 10)]
  {
  }

  /** A field followed by a one-character separator. */
  lemma FieldThenSeparator(f: string, c: char, rest: string)
    ensures var s := f + [c] + rest;
      |s| == |f| + 1 + |rest| && s[..|f|] == f && s[|f|] == c && s[|f| + 1..] == rest
  {
    var s := f + [c] + rest;
    assert s[..|f|] == f;
    assert s[|f| + 1..] == rest;
  }

  /** HH:MM:SS.ffffff */
  function FormatTime(dt: DateTime): (s: string)
    requires ValidDateTime(dt)
    ensures |s| == 15 && s[2] == ':' && s[5] == ':' && s[8] == '.'
    ensures s[0..2] == Pad(dt.hour, 2) && s[3..5] == Pad(dt.minute, 2)
    ensures s[6..8] == Pad(dt.second, 2) && s[9..15] == Pad(dt.micro, 6)
  {
    var se := Pad(dt.second, 2) + "." + Pad(dt.micro, 6);
    FieldThenSeparator(Pad(dt.second, 2), '.', Pad(dt.micro, 6));
    var mi := Pad(dt.minute, 2) + ":" + se;
    FieldThenSeparator(Pad(dt.minute, 2), ':', se);
    var s := Pad(dt.hour, 2) + ":" + mi;
    FieldThenSeparator(Pad(dt.hour, 2), ':', mi);
    assert s[3..] == mi && mi[3..] == se;
    s
  }

  /** YYYY-MM-DD */
  function FormatDate(dt: DateTime): (s: string)
    requires ValidDateTime(dt)
    ensures |s| == 10 && s[4] == '-' && s[7] == '-'
    ensures s[0..4] == Pad(dt.year, 4) && s[5..7] == Pad(dt.month, 2) && s[8..10] == Pad(dt.day, 2)
  {
    var md := Pad(dt.month, 2) + "-" + Pad(dt.day, 2);
    FieldThenSeparator(Pad(dt.month, 2), '-', Pad(dt.day, 2));
    var s := Pad(dt.year, 4) + "-" + md;
    FieldThenSeparator(Pad(dt.year, 4), '-', md);
    assert s[5..] == md;
    s
  }

  /** The text Discord writes: YYYY-MM-DDTHH:MM:SS.ffffff. */
  function FormatDateTime(dt: DateTime): (s: string)
    requires ValidDateTime(dt)
    ensures |s| == 26 && Group1Shape(s) && FieldsOf(s) == dt
  {
    var date, time := FormatDate(dt), FormatTime(dt);
    var s := date + "T" + time;
    FieldThenSeparator(date, 'T', time);
    assert s[..26] == s;
    assert s[0..4] == date[0..4] && s[5..7] == date[5..7] && s[8..10] == date[8..10];
    assert s[11..13] == time[0..2] && s[14..16] == time[3..5];
    assert s[17..19] == time[6..8] && s[20..26] == time[9..15];
    s
  }

  /** The offset "+HH:MM". */
  function FormatOffset(hours: nat, minutes: nat): (s: string)
    requires hours < 24 && minutes < 60
    ensures |s| == 6 && s[0] == '+'
  {
    "+" + Pad(hours, 2) + ":" + Pad(minutes, 2)
  }

  lemma OffsetReadsBack(hours: nat, minutes: nat)
    requires hours < 24 && minutes < 60
    ensures ParseUtcOffset(FormatOffset(hours, minutes)) == Some((hours * 3600 + minutes * 60) * 1000000)
  {
    var z := FormatOffset(hours, minutes);
    PadTwo(hours);
    PadTwo(minutes);
    assert z[1..3] == Pad(hours, 2) && z[4..6] == Pad(minutes, 2);
    assert z[6..] == [];
  }

  /** The pattern captures the formatted date-time and the formatted offset. */
  lemma FormattedGroups(g: string, extra: string, z: string)
    requires |g| == 26 && Group1Shape(g) && AllDigits(extra)
    requires |z| == 6 && z[0] == '+' && IsDigit(z[1]) && IsDigit(z[2]) && z[3] == ':'
    requires forall k :: 0 <= k < 6 ==> z[k] != '\n'
    ensures MatchGroups(g + extra + z).Some?
    ensures MatchGroups(g + extra + z).value.dateTime == g
    ensures MatchGroups(g + extra + z).value.offset == z
  {
    var s := g + extra + z;
    var n := |extra|;
    assert forall k :: 0 <= k < 26 ==> s[k] == g[k];
    assert s[..26] == g;
    assert forall k :: 26 <= k < 26 + n ==> s[k] == extra[k - 26];
    assert forall k :: 0 <= k < 6 ==> s[26 + n + k] == z[k];
    RunEndIs(s, 26, 26 + n + 3);
    LastPlusIs(s, 26, 26 + n + 3, 26 + n);
    LineEndIs(s, 26 + n, |s|);
    assert s[26 + n..|s|] == z;
  }

  /** Round trip: a valid date-time written with any stray digits and an offset "+HH:MM"
      parses to its UTC epoch second. */
  lemma FormatRoundTrip(dt: DateTime, extra: string, hours: nat, minutes: nat)
    requires ValidDateTime(dt) && AllDigits(extra) && hours < 24 && minutes < 60
    ensures ParseDiscordTimestamp(FormatDateTime(dt) + extra + FormatOffset(hours, minutes)) ==
            Ok(EpochSeconds(Stamp(dt, (hours * 3600 + minutes * 60) * 1000000)))
  {
    var g, z := FormatDateTime(dt), FormatOffset(hours, minutes);
    var offset := (hours * 3600 + minutes * 60) * 1000000;
    PadTwo(hours);
    PadTwo(minutes);
    FormattedGroups(g, extra, z);
    StrptimeFormatted(dt, hours, minutes);
    assert ParseStamp(g + extra + z) == Ok(Stamp(dt, offset));
  }

  lemma StrptimeFormatted(dt: DateTime, hours: nat, minutes: nat)
    requires ValidDateTime(dt) && hours < 24 && minutes < 60
    ensures Group1Shape(FormatDateTime(dt) + FormatOffset(hours, minutes))
    ensures Strptime(FormatDateTime(dt) + FormatOffset(hours, minutes)) ==
            Ok(Stamp(dt, (hours * 3600 + minutes * 60) * 1000000))
  {
    var g, z := FormatDateTime(dt), FormatOffset(hours, minutes);
    var t := g + z;
    assert t[..26] == g[..26] by { assert g[..26] == g; }
    assert t[26..] == z;
    assert Group1Shape(t) by { assert forall k :: 0 <= k < 26 ==> t[k] == g[k]; }
    assert FieldsOf(t) == dt;
    OffsetReadsBack(hours, minutes);
    assert ParseUtcOffset(t[26..]) == Some((hours * 3600 + minutes * 60) * 1000000);
  }

  // ---------------------------------------------------------------------------
  // Truncation, microseconds and the offset
  // ---------------------------------------------------------------------------

  /** For instants at or after 1970 and a whole-second offset, the microseconds do not
      change the result: it is the local seconds minus the offset. */
  lemma MicrosecondsIgnoredAfterEpoch(dt: DateTime, micro: nat, offset: int)
    requires ValidDateTime(dt) && micro < 1000000
    requires offset % 1000000 == 0
    requires LocalSeconds(dt) - offset / 1000000 >= 0
    ensures EpochSeconds(Stamp(dt.(micro := micro), offset)) == LocalSeconds(dt) - offset / 1000000
  {
    var w := LocalSeconds(dt) - offset / 1000000;
    assert InstantMicros(Stamp(dt.(micro := micro), offset)) == w * 1000000 + micro;
  }

  /** Before 1970, int() truncates toward zero: a non-zero microsecond part moves the
      result up by one second. */
  lemma MicrosecondsRoundUpBeforeEpoch(dt: DateTime, offset: int)
    requires ValidDateTime(dt) && 0 < dt.micro
    requires offset % 1000000 == 0
    requires LocalSeconds(dt) - offset / 1000000 < 0
    ensures EpochSeconds(Stamp(dt, offset)) == LocalSeconds(dt) - offset / 1000000 + 1
  {
    var w := LocalSeconds(dt) - offset / 1000000;
    assert InstantMicros(Stamp(dt, offset)) == w * 1000000 + dt.micro;
  }

  /** One more hour of offset is one hour earlier, unless truncation toward zero flips
      across the epoch (an instant strictly inside the first hour with a fraction). */
  lemma OffsetHourShift(st: Stamp)
    requires st.dateTime.year >= 1 && 1 <= st.dateTime.month <= 12
    requires var a := InstantMicros(st); a >= 3600 * 1000000 || a <= 0 || a % 1000000 == 0
    ensures EpochSeconds(st.(offset := st.offset + 3600 * 1000000)) == EpochSeconds(st) - 3600
  {
    var a := InstantMicros(st);
    assert InstantMicros(st.(offset := st.offset + 3600 * 1000000)) == a - 3600 * 1000000;
    if a % 1000000 == 0 {
      assert a == (a / 1000000) * 1000000;
    }
  }

  /** The same on formatted text: "+HH:MM" one hour further east reads back 3600 lower. */
  lemma FormattedOffsetHourShift(dt: DateTime, extra: string, hours: nat, minutes: nat)
    requires ValidDateTime(dt) && AllDigits(extra) && hours + 1 < 24 && minutes < 60
    requires var a := InstantMicros(Stamp(dt, (hours * 3600 + minutes * 60) * 1000000));
             a >= 3600 * 1000000 || a <= 0 || a % 1000000 == 0
    ensures var later := ParseDiscordTimestamp(FormatDateTime(dt) + extra + FormatOffset(hours + 1, minutes));
            var earlier := ParseDiscordTimestamp(FormatDateTime(dt) + extra + FormatOffset(hours, minutes));
            later.Ok? && earlier.Ok? && later.value == earlier.value - 3600
  {
    FormatRoundTrip(dt, extra, hours, minutes);
    FormatRoundTrip(dt, extra, hours + 1, minutes);
    StampHourShift(dt, hours, minutes);
  }

  lemma StampHourShift(dt: DateTime, hours: nat, minutes: nat)
    requires ValidDateTime(dt)
    requires var a := InstantMicros(Stamp(dt, (hours * 3600 + minutes * 60) * 1000000));
             a >= 3600 * 1000000 || a <= 0 || a % 1000000 == 0
    ensures EpochSeconds(Stamp(dt, ((hours + 1) * 3600 + minutes * 60) * 1000000)) ==
            EpochSeconds(Stamp(dt, (hours * 3600 + minutes * 60) * 1000000)) - 3600
  {
    var st := Stamp(dt, (hours * 3600 + minutes * 60) * 1000000);
    assert ((hours + 1) * 3600 + minutes * 60) * 1000000 == st.offset + 3600 * 1000000;
    OffsetHourShift(st);
  }

  // ---------------------------------------------------------------------------
  // The calendar arithmetic against a day-by-day count
  // ---------------------------------------------------------------------------

  /** Reference count: the days of every year before y, one year at a time. */
  function YearDaysBefore(y: nat): nat
    requires y >= 1
  {
    if y == 1 then 0 else YearDaysBefore(y - 1) + DaysInYear(y - 1)
  }

  /** Reference count: the days of every month of year y before m, one month at a time. */
  function MonthDaysBefore(y: nat, m: nat): nat
    requires 1 <= m <= 12
  {
    if m == 1 then 0 else MonthDaysBefore(y, m - 1) + DaysInMonth(y, m - 1)
  }

  lemma DivStep(p: nat, k: nat)
    requires p >= 1 && (k == 4 || k == 100 || k == 400)
    ensures p / k - (p - 1) / k == if p % k == 0 then 1 else 0
  {
    var q, r := (p - 1) / k, (p - 1) % k;
    assert p - 1 == q * k + r;
    if r == k - 1 {
      assert p == (q + 1) * k;
    } else {
      assert p == q * k + (r + 1);
    }
  }

  /** A multiple of 400 is a multiple of 100, and a multiple of 100 a multiple of 4. */
  lemma DivisorChain(p: nat)
    ensures p % 400 == 0 ==> p % 100 == 0
    ensures p % 100 == 0 ==> p % 4 == 0
  {
    if p % 400 == 0 {
      var q := p / 400;
      assert p == 100 * (4 * q);
    }
    if p % 100 == 0 {
      var q := p / 100;
      assert p == 4 * (25 * q);
    }
  }

  /** The closed form y*365 + y/4 - y/100 + y/400 counts the days of the years before. */
  lemma {:induction false} DaysBeforeYearCounts(y: nat)
    requires y >= 1
    ensures DaysBeforeYear(y) == YearDaysBefore(y)
  {
    if y > 1 {
      DaysBeforeYearCounts(y - 1);
      var p := y - 1;
      DivStep(p, 4);
      DivStep(p, 100);
      DivStep(p, 400);
      DivisorChain(p);
      assert p * 365 == (p - 1) * 365 + 365;
      assert DaysInYear(p) == 365 + (if p % 4 == 0 then 1 else 0) - (if p % 100 == 0 then 1 else 0)
                                  + (if p % 400 == 0 then 1 else 0);
    }
  }

  /** The month table plus the leap-day correction counts the days of the months before. */
  lemma {:induction false} DaysBeforeMonthCounts(y: nat, m: nat)
    requires 1 <= m <= 12
    ensures DaysBeforeMonth(y, m) == MonthDaysBefore(y, m)
  {
    if m > 1 {
      DaysBeforeMonthCounts(y, m - 1);
    }
  }

  /** The day after a valid date has the next ordinal: the ordinal count has no gaps. */
  lemma NextDayOrdinal(y: nat, m: nat, d: nat)
    requires y >= 1 && 1 <= m <= 12 && 1 <= d <= DaysInMonth(y, m)
    ensures d < DaysInMonth(y, m) ==> Ordinal(y, m, d + 1) == Ordinal(y, m, d) + 1
    ensures d == DaysInMonth(y, m) && m < 12 ==> Ordinal(y, m + 1, 1) == Ordinal(y, m, d) + 1
    ensures d == DaysInMonth(y, m) && m == 12 ==> Ordinal(y + 1, 1, 1) == Ordinal(y, m, d) + 1
  {
    if m < 12 {
      DaysBeforeMonthCounts(y, m);
      DaysBeforeMonthCounts(y, m + 1);
    } else {
      DaysBeforeYearCounts(y);
      DaysBeforeYearCounts(y + 1);
      DaysBeforeMonthCounts(y, 12);
      assert MonthDaysBefore(y, 12) + 31 == DaysInYear(y);
    }
  }

  /** 1970-01-01T00:00:00+00:00 is epoch second 0. */
  lemma UnixEpochIsZero()
    ensures EpochSeconds(Stamp(DateTime(1970, 1, 1, 0, 0, 0, 0), 0)) == 0
  {
  }
}
