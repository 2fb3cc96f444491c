/** The Discord timestamp normaliser (parse_discord_timestamp): an anchored match of
    the pattern
        (\d{4}-\d{2}-\d{2}T\d{2}:\d{2}:\d{2}\.\d{6})[\d+]*(\+.*)
    the two groups rejoined and read by strptime with "%Y-%m-%dT%H:%M:%S.%f%z",
    and the aware instant turned into whole seconds since 1970-01-01T00:00:00Z. */
module DiscordTimestamp {
  import opened Common

  /** Both failures are Python ValueErrors: the pattern did not match, or strptime,
      date, timezone or datetime refused the rejoined text. */
  datatype TimestampError = PatternMismatch | StrptimeRejected

  // ---------------------------------------------------------------------------
  // The regular expression
  // ---------------------------------------------------------------------------

  /** What position i (< 26) of the first group admits. */
  predicate FitsGroup1(i: nat, c: char)
  {
    if i == 4 || i == 7 then c == '-'
    else if i == 10 then c == 'T'
    else if i == 13 || i == 16 then c == ':'
    else if i == 19 then c == '.'
    else IsDigit(c)
  }

  /** The first group matches at the start of s: a date, a time and exactly six
      fractional digits, 26 characters in all. */
  predicate Group1Shape(s: string)
  {
    |s| >= 26 && forall i :: 0 <= i < 26 ==> FitsGroup1(i, s[i])
  }

  /** The character class [\d+]. */
  predicate InRunClass(c: char)
  {
    IsDigit(c) || c == '+'
  }

  /** End of the maximal run of [\d+] characters starting at i (what the greedy star takes first). */
  function RunEnd(s: string, i: nat): (j: nat)
    requires i <= |s|
    ensures i <= j <= |s|
    ensures forall k :: i <= k < j ==> InRunClass(s[k])
    ensures j == |s| || !InRunClass(s[j])
    decreases |s| - i
  {
    if i == |s| || !InRunClass(s[i]) then i else RunEnd(s, i + 1)
  }

  /** The last '+' in s[lo..hi], which is where backtracking lets `\+` match. */
  function LastPlus(s: string, lo: nat, hi: nat): (r: Option<nat>)
    requires lo <= hi <= |s|
    ensures r.Some? ==> lo <= r.value < hi && s[r.value] == '+'
    ensures r.Some? ==> forall k :: r.value < k < hi ==> s[k] != '+'
    ensures r.None? ==> forall k :: lo <= k < hi ==> s[k] != '+'
    decreases hi - lo
  {
    if hi == lo then None
    else if s[hi - 1] == '+' then Some(hi - 1)
    else LastPlus(s, lo, hi - 1)
  }

  /** Where `.*` stops: the first line feed at or after i, or the end of s. */
  function LineEnd(s: string, i: nat): (j: nat)
    requires i <= |s|
    ensures i <= j <= |s|
    ensures forall k :: i <= k < j ==> s[k] != '\n'
    ensures j == |s| || s[j] == '\n'
    decreases |s| - i
  {
    if i == |s| || s[i] == '\n' then i else LineEnd(s, i + 1)
  }

  /** The two captured groups and where the second one starts. */
  datatype Groups = Groups(dateTime: string, offset: string, offsetStart: nat)

  /** DISCORD_TIMESTAMP_REGEX.match(s). */
  function MatchGroups(s: string): Option<Groups>
  {
    if !Group1Shape(s) then None
    else
      match LastPlus(s, 26, RunEnd(s, 26))
      case None => None
      case Some(p) => Some(Groups(s[..26], s[p..LineEnd(s, p)], p))
  }

  // ---------------------------------------------------------------------------
  // strptime with "%Y-%m-%dT%H:%M:%S.%f%z"
  // ---------------------------------------------------------------------------

  datatype DateTime = DateTime(year: nat, month: nat, day: nat,
                               hour: nat, minute: nat, second: nat, micro: nat)

  /** An aware instant: civil fields and the UTC offset in microseconds. */
  datatype Stamp = Stamp(dateTime: DateTime, offset: int)

  const DayMicros: int := 86400 * 1000000

  predicate IsLeapYear(y: nat)
  {
    y % 4 == 0 && (y % 100 != 0 || y % 400 == 0)
  }

  function DaysInMonth(y: nat, m: nat): (n: nat)
    requires 1 <= m <= 12
    ensures 28 <= n <= 31
  {
    if m == 2 then (if IsLeapYear(y) then 29 else 28)
    else if m == 4 || m == 6 || m == 9 || m == 11 then 30
    else 31
  }

  /** The civil date-time that datetime() accepts. */
  predicate ValidDateTime(dt: DateTime)
  {
    1 <= dt.year <= 9999 && 1 <= dt.month <= 12 && 1 <= dt.day <= DaysInMonth(dt.year, dt.month) &&
    dt.hour < 24 && dt.minute < 60 && dt.second < 60 && dt.micro < 1000000
  }

  /** The fields of the first 26 characters, read as decimal numerals. */
  function FieldsOf(s: string): DateTime
    requires Group1Shape(s)
  {
    var g := s[..26];
    DateTime(DigitsValue(g[0..4]), DigitsValue(g[5..7]), DigitsValue(g[8..10]),
             DigitsValue(g[11..13]), DigitsValue(g[14..16]), DigitsValue(g[17..19]),
             DigitsValue(g[20..26]))
  }

  predicate IsSexDigit(c: char)
  {
    '0' <= c <= '5'
  }

  /** The optional seconds (and fraction) part of a `%z` offset, in microseconds; `colon`
      says whether the hours and minutes were separated by ':'. */
  function OffsetSecondsPart(rest: string, colon: bool): (r: Option<nat>)
    ensures r.Some? ==> r.value < 60 * 1000000
  {
    if rest == [] then Some(0)
    else
      var sep := rest[0] == ':';
      var i := if sep then 1 else 0;
      if |rest| < i + 2 || !IsSexDigit(rest[i]) || !IsDigit(rest[i + 1]) then None  // unconverted data remains
      else if sep != colon then None  // inconsistent use of ':'
      else
        var seconds := DigitsValue(rest[i..i + 2]);
        assert seconds < 60 by { TwoDigitsValue(rest[i..i + 2]); }
        var tail := rest[i + 2..];
        if tail == [] then Some(seconds * 1000000)
        else if 2 <= |tail| <= 7 && tail[0] == '.' && AllDigits(tail[1..]) then
          // the fraction is padded with zeros to six digits
          assert DigitsValue(tail[1..]) * Pow10(7 - |tail|) < 1000000 by {
            PaddedBelow(DigitsValue(tail[1..]), |tail| - 1, 6);
            assert Pow10(6) == 1000000;
          }
          Some(seconds * 1000000 + DigitsValue(tail[1..]) * Pow10(7 - |tail|))
        else None
  }

  /** The `%z` directive applied to all the text after the fraction:
      [+-]HH[:]MM, optionally followed by [:]SS and .ffffff (one to six digits). */
  function ParseUtcOffset(z: string): (r: Option<int>)
    ensures r.Some? ==> |z| >= 5 && (z[0] == '+' || z[0] == '-')
    ensures r.Some? && z[0] == '+' ==> r.value >= 0
  {
    if |z| < 5 || (z[0] != '+' && z[0] != '-') || !IsDigit(z[1]) || !IsDigit(z[2]) then None
    else
      var colon := z[3] == ':';
      var m := if colon then 4 else 3;
      if |z| < m + 2 || !IsSexDigit(z[m]) || !IsDigit(z[m + 1]) then None
      else
        var hoursMinutes := DigitsValue(z[1..3]) * 3600 + DigitsValue(z[m..m + 2]) * 60;
        match OffsetSecondsPart(z[m + 2..], colon)
        case None => None
        case Some(rest) =>
          var magnitude := hoursMinutes * 1000000 + rest;
          Some(if z[0] == '-' then -magnitude else magnitude)
  }

  /** datetime.strptime(t, "%Y-%m-%dT%H:%M:%S.%f%z") on a text whose first 26 characters
      already have the group-1 shape. */
  function Strptime(t: string): Result<Stamp, TimestampError>
    requires Group1Shape(t)
  {
    var dt := FieldsOf(t);
    // the directive patterns: %m 1-12, %d 1-31, %H 0-23, %M 0-59, %S 0-61
    if !(1 <= dt.month <= 12 && 1 <= dt.day <= 31 && dt.hour <= 23 && dt.minute <= 59 && dt.second <= 61) then
      Err(StrptimeRejected)
    else
      match ParseUtcOffset(t[26..])
      case None => Err(StrptimeRejected)
      case Some(offset) =>
        if dt.year == 0 || dt.day > DaysInMonth(dt.year, dt.month) then Err(StrptimeRejected)  // date()
        else if !(-DayMicros < offset < DayMicros) then Err(StrptimeRejected)               // timezone()
        else if dt.second > 59 then Err(StrptimeRejected)                                     // datetime()
        else Ok(Stamp(dt, offset))
  }

  // ---------------------------------------------------------------------------
  // The proleptic Gregorian calendar and datetime.timestamp()
  // ---------------------------------------------------------------------------

  function DaysInYear(y: nat): nat
  {
    if IsLeapYear(y) then 366 else 365
  }

  /** Days in the years 1 .. y-1 (date.toordinal's closed form). */
  function DaysBeforeYear(y: nat): nat
    requires y >= 1
  {
    var p := y - 1;
    p * 365 + p / 4 - p / 100 + p / 400
  }

  const DaysBeforeMonthTable: seq<nat> := [0, 31, 59, 90, 120, 151, 181, 212, 243, 273, 304, 334]

  /** Days in the months 1 .. m-1 of year y. */
  function DaysBeforeMonth(y: nat, m: nat): nat
    requires 1 <= m <= 12
  {
    DaysBeforeMonthTable[m - 1] + (if m > 2 && IsLeapYear(y) then 1 else 0)
  }

  /** date.toordinal(): 0001-01-01 is day 1. */
  function Ordinal(y: nat, m: nat, d: nat): nat
    requires y >= 1 && 1 <= m <= 12
  {
    DaysBeforeYear(y) + DaysBeforeMonth(y, m) + d
  }

  const UnixEpochOrdinal: nat := 719163

  /** Seconds of the civil date-time since 1970-01-01T00:00:00, ignoring the offset. */
  function LocalSeconds(dt: DateTime): int
    requires dt.year >= 1 && 1 <= dt.month <= 12
  {
    ((Ordinal(dt.year, dt.month, dt.day) as int) - UnixEpochOrdinal) * 86400 +
    dt.hour * 3600 + dt.minute * 60 + dt.second
  }

  /** Exact microseconds of the instant since the Unix epoch: local time minus the offset. */
  function InstantMicros(st: Stamp): int
    requires st.dateTime.year >= 1 && 1 <= st.dateTime.month <= 12
  {
    LocalSeconds(st.dateTime) * 1000000 + st.dateTime.micro - st.offset
  }

  /** int(datetime.timestamp()): whole seconds, truncated toward zero. */
  function EpochSeconds(st: Stamp): int
    requires st.dateTime.year >= 1 && 1 <= st.dateTime.month <= 12
  {
    TruncDiv(InstantMicros(st), 1000000)
  }

  // ---------------------------------------------------------------------------
  // parse_discord_timestamp
  // ---------------------------------------------------------------------------

  /** Regex match, rejoin of group 1 and group 2, strptime. */
  function ParseStamp(s: string): Result<Stamp, TimestampError>
  {
    match MatchGroups(s)
    case None => Err(PatternMismatch)
    case Some(g) =>
      var t := g.dateTime + g.offset;
      assert Group1Shape(t) by { assert forall i :: 0 <= i < 26 ==> t[i] == s[i]; }
      Strptime(t)
  }

  function ParseDiscordTimestamp(s: string): Result<int, TimestampError>
  {
    match ParseStamp(s)
    case Err(e) => Err(e)
    case Ok(st) => Ok(EpochSeconds(st))
  }
}
