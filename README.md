# dm-analytics ingestion and statistics core, in Dafny

dm-analytics compares two people's direct-message histories across Discord and
Instagram. Its core, `backend/utils.py`, does four things. This project models
each of them and proves what the code promises.

- **Timestamp normaliser** (`parse_discord_timestamp`, module `DiscordTimestamp`).
  An anchored match of `DISCORD_TIMESTAMP_REGEX` captures two groups: the date,
  the time and exactly six fractional digits, then the `+` offset. Any
  digits and `+` signs between them are dropped. The model follows `re`
  exactly: group 2 starts at the last `+` of the `[\d+]` run, and `.*` stops
  at a line feed. The rejoined text is read as `strptime` reads
  `%Y-%m-%dT%H:%M:%S.%f%z`, with the directive ranges, the `%z` grammar, and
  the checks made by `date()`, `timezone()` and `datetime()`. The result is the
  epoch second of the instant, truncated toward zero as `int()` truncates.
  Module `TimestampProperties` holds the properties:
  - the rejections;
  - stray digits are ignored;
  - a round trip from a formatted date-time;
  - the effect of truncation, microseconds and the offset;
  - the closed-form calendar arithmetic checked against a day-by-day count.
- **Instagram parser** (`process_instagram_data`, module `Instagram`). This is a
  filtering comprehension: it keeps messages with non-empty content that is not
  a quiet-mode notice, and turns each into `('instagram', sender, ms / 1000
  truncated, content)`. The first kept message without `sender_name` or
  `timestamp_ms` raises a `KeyError`, and nothing is returned.
- **Discord parser** (`process_discord_data`, module `Discord`). This is a loop
  over the CSV rows, proved against a per-row function. The header is skipped,
  and an absent or empty header is an error. The first row that raises an
  `IndexError` or `ValueError` aborts the whole file.
- **Statistics aggregator** (`generate_basic_statistics` without the database,
  modules `Statistics` and `StatisticsProperties`). This is a loop over the nine
  (user, platform) combinations. Each one filters the messages, then counts
  messages, characters and `str.split()` words, and computes three averages
  guarded by `message_count`. The properties proved:
  - `str.split()` is characterised exactly, as the words of the text's layout
    into whitespace runs and words;
  - each row's counts are those of its filtered messages, and each average
    times its denominator gives back its numerator;
  - the platform marginals, on the filtered lists and on the nine stored rows;
  - the user marginals and exactly when they hold;
  - where unmatched and shared names land;
  - exactly when the loop raises.

Module `Common` holds the shared vocabulary:
- `Option` and `Result`;
- the canonical message tuple;
- decimal numerals;
- Python's truncating division (`TruncDiv`).

Module `WorkedExamples` works through concrete inputs:
- the timestamp with nine fractional digits;
- the quiet-mode message;
- a Discord row with no content column.

Facts about the code that the model keeps:
- There is no fallback for authors: an author matching neither mapped name
  appears only in the `both_users` rows.
- `avg_word_length` is guarded by `message_count`, not by `word_count`. A
  non-empty selection of blank messages raises `ZeroDivisionError`. The model
  returns `Err(ZeroDivisionError(combination))` for the first such combination.
- An empty first CSV line counts as a missing header.
- The errors carry what the code reports: the offending row, or the missing
  key. They do not carry an index.
- Timestamps before 1970 truncate toward zero; they are not floored.

## Model

| member | source | states |
|---|---|---|
| Common.TruncDiv | backend/utils.py:29 | `int(a / b)` for a positive divisor: the quotient truncated toward zero, bounded on both sides of a for either sign |
| Common.DigitsValue | backend/utils.py:17 | `int()` of a field's decimal digits, below 10 to the number of digits; FormatDateTime reads the fields back through it |
| DiscordTimestamp.RunEnd | backend/utils.py:9 | the greedy `[\d+]*` takes the maximal run of digits and `+` after the six fractional digits |
| DiscordTimestamp.FitsGroup1 | backend/utils.py:9 | defines what each of the 26 positions of group 1 admits: `\d`, `-`, `T`, `:` or `.`; MatchGroupsCharacterised states the match |
| DiscordTimestamp.Group1Shape | backend/utils.py:9 | defines group 1 matching at the start: 26 characters, each admitted at its position; MatchGroupsCharacterised states the match |
| DiscordTimestamp.InRunClass | backend/utils.py:9 | defines the class `[\d+]`; RunEnd states the run it spans |
| DiscordTimestamp.LastPlus | backend/utils.py:9 | backtracking lets `(\+.*)` start only at the last `+` of that run; None exactly when the run has no `+` |
| DiscordTimestamp.LineEnd | backend/utils.py:9 | `.*` extends to the first line feed or the end of the text |
| DiscordTimestamp.MatchGroups | backend/utils.py:9-13 | defines `DISCORD_TIMESTAMP_REGEX.match`; MatchGroupsCharacterised states when it matches and what the groups hold |
| DiscordTimestamp.Strptime | backend/utils.py:17 | defines `datetime.strptime` with the Discord format; StrptimeAccepts states exactly what it accepts and returns |
| DiscordTimestamp.FieldsOf | backend/utils.py:17 | defines how `%Y-%m-%dT%H:%M:%S.%f` reads the seven fields; FormatDateTime states it reads back every valid date-time |
| DiscordTimestamp.IsLeapYear | backend/utils.py:17 | defines the Gregorian leap year; DaysBeforeYearCounts and DaysBeforeMonthCounts use it |
| DiscordTimestamp.DaysInMonth | backend/utils.py:17 | month lengths as `date()` checks them, between 28 and 31 |
| DiscordTimestamp.ValidDateTime | backend/utils.py:17 | defines the fields `date()` and `datetime()` accept; StrptimeAccepts and OutOfRangeFieldRejected state its role |
| DiscordTimestamp.OffsetSecondsPart | backend/utils.py:17 | the optional seconds and fraction of a `%z` offset stay below one minute |
| DiscordTimestamp.ParseUtcOffset | backend/utils.py:17 | `%z` reads only a signed offset of at least five characters, and a `+` offset is never negative |
| DiscordTimestamp.Ordinal | backend/utils.py:17 | defines `date.toordinal()`; DaysBeforeYearCounts, DaysBeforeMonthCounts and NextDayOrdinal state that it counts days without gaps |
| DiscordTimestamp.DaysBeforeYear | backend/utils.py:17 | defines `_days_before_year`'s closed form; DaysBeforeYearCounts states it equals the year-by-year count |
| DiscordTimestamp.DaysBeforeMonth | backend/utils.py:17 | defines `_days_before_month` with its leap-day fix; DaysBeforeMonthCounts states it equals the month-by-month count |
| DiscordTimestamp.LocalSeconds | backend/utils.py:17 | defines the seconds of the civil fields since 1970-01-01; UnixEpochIsZero fixes the epoch |
| DiscordTimestamp.InstantMicros | backend/utils.py:17 | defines the exact instant in microseconds, local time minus the offset; OffsetHourShift states the offset's effect |
| DiscordTimestamp.EpochSeconds | backend/utils.py:17 | defines `int(....timestamp())`, truncated toward zero; MicrosecondsIgnoredAfterEpoch and MicrosecondsRoundUpBeforeEpoch state the truncation |
| DiscordTimestamp.ParseStamp | backend/utils.py:13-17 | defines the match, the rejoin of group 1 and group 2, and strptime; AcceptedStampIsValid and the rejection lemmas state its outcomes |
| DiscordTimestamp.ParseDiscordTimestamp | backend/utils.py:12-17 | defines `parse_discord_timestamp`; FormatRoundTrip and ExtraDigitsIgnored state what it returns |
| TimestampProperties.MatchGroupsCharacterised | backend/utils.py:9-13 | the match succeeds exactly when the first 26 characters have the date-time shape and a `+` follows in the run; group 1 is those 26 characters, group 2 runs from the last `+` to the line end |
| TimestampProperties.StrptimeAccepts | backend/utils.py:16-17 | strptime accepts exactly a valid civil date-time with a readable offset under 24 hours, and returns those fields and that offset |
| TimestampProperties.AcceptedStampIsValid | backend/utils.py:12-17 | a successful parse yields the validated fields of the text and a non-negative offset under one day |
| TimestampProperties.ShortFractionRejected | backend/utils.py:13-15 | fewer than six fractional digits gives the pattern error |
| TimestampProperties.NoPlusOffsetRejected | backend/utils.py:13-15 | without a `+` after the fraction (a `-05:00` offset included) the pattern does not match |
| TimestampProperties.OutOfRangeFieldRejected | backend/utils.py:17 | an out-of-range date or time field, or year 0, is rejected |
| TimestampProperties.BadOffsetRejected | backend/utils.py:17 | an offset `%z` cannot read, or one of a day or more, is rejected by strptime |
| TimestampProperties.ShiftedMatch | backend/utils.py:9 | removing the stray run leaves both captured groups unchanged |
| TimestampProperties.SameGroupsSameResult | backend/utils.py:16-17 | the result depends only on the two groups |
| TimestampProperties.ExtraDigitsIgnored | backend/utils.py:9-17 | any run of digits and `+` between the microseconds and the offset leaves the result unchanged |
| TimestampProperties.FormatDate | backend/utils.py:17 | writer side for the round trip, not in the code: `YYYY-MM-DD` puts the padded year, month and day where `%Y-%m-%d` reads them |
| TimestampProperties.FormatTime | backend/utils.py:17 | writer side for the round trip, not in the code: `HH:MM:SS.ffffff` puts the padded fields where `%H:%M:%S.%f` reads them |
| TimestampProperties.FormatDateTime | backend/utils.py:17 | the Discord text of a valid date-time has the group-1 shape and reads back as that date-time |
| TimestampProperties.OffsetReadsBack | backend/utils.py:17 | `+HH:MM` reads back as that many hours and minutes |
| TimestampProperties.FormattedGroups | backend/utils.py:9-16 | the pattern captures the formatted date-time and the formatted offset |
| TimestampProperties.StrptimeFormatted | backend/utils.py:17 | strptime accepts the rejoined formatted text with its own fields and offset |
| TimestampProperties.FormatRoundTrip | backend/utils.py:12-17 | a valid date-time, written with stray digits and a `+HH:MM` offset, parses to the epoch second of that instant |
| TimestampProperties.MicrosecondsIgnoredAfterEpoch | backend/utils.py:17 | for a whole-second offset, from 1970 on the microseconds do not change the result: local seconds minus the offset |
| TimestampProperties.MicrosecondsRoundUpBeforeEpoch | backend/utils.py:17 | for a whole-second offset, before 1970 a non-zero microsecond part moves the truncated result up by one second |
| TimestampProperties.OffsetHourShift | backend/utils.py:17 | one more hour of offset lowers the result by exactly 3600, except inside the truncation flip at the epoch |
| TimestampProperties.StampHourShift | backend/utils.py:17 | an `+HH:MM` offset one hour larger gives an epoch second 3600 lower, outside the truncation flip |
| TimestampProperties.FormattedOffsetHourShift | backend/utils.py:12-17 | the same on formatted text: an offset one hour further east reads back 3600 seconds lower |
| TimestampProperties.DivStep | backend/utils.py:17 | proof step for DaysBeforeYearCounts: the leap-year divisions step by one exactly at multiples of 4, 100 and 400 |
| TimestampProperties.DivisorChain | backend/utils.py:17 | proof step for DaysBeforeYearCounts: a multiple of 400 is a multiple of 100, which is a multiple of 4, as the leap-year rule relies on |
| TimestampProperties.DaysBeforeYearCounts | backend/utils.py:17 | the closed-form day count of the years before y equals the year-by-year count |
| TimestampProperties.DaysBeforeMonthCounts | backend/utils.py:17 | the month table with the leap-day correction equals the month-by-month count |
| TimestampProperties.NextDayOrdinal | backend/utils.py:17 | the day after a valid date, across months and years, has the next ordinal |
| TimestampProperties.UnixEpochIsZero | backend/utils.py:17 | 1970-01-01T00:00:00+00:00 is second 0 |
| Instagram.ToCanonical | backend/utils.py:26-31 | a kept message becomes the instagram tuple with its sender, content and truncated seconds exactly when both keys are present; otherwise the KeyError names sender_name first |
| Instagram.Kept | backend/utils.py:33-35 | defines the comprehension's filter; QuietModeNoticeDropped and KeptMessagesComplete state what it keeps |
| Instagram.EndsWith | backend/utils.py:33-35 | defines `str.endswith`, used with the quiet-mode suffix `QuietModeSuffix`; QuietModeNoticeDropped states the effect |
| Instagram.Complete | backend/utils.py:28-29 | defines a message having both `sender_name` and `timestamp_ms`; ToCanonical states it decides the KeyError |
| Instagram.ProcessMessages | backend/utils.py:25-36 | success yields at most one tuple per message, each with platform instagram |
| Instagram.ProcessInstagramData | backend/utils.py:23 | a document without `messages` gives the empty result |
| Instagram.KeptMessages | backend/utils.py:32-35 | the kept subsequence holds only messages of the input that pass the filter |
| Instagram.KeptMessagesAppend | backend/utils.py:25-36 | the filter keeps the order of the input |
| Instagram.KeptMessagesComplete | backend/utils.py:32-35 | every message that passes the filter is kept |
| Instagram.ProcessMessagesKeptTuples | backend/utils.py:25-36 | the parse succeeds exactly when every kept message has both keys, and then yields the tuple of each kept message in order |
| Instagram.FirstIncompleteDecides | backend/utils.py:25-36 | the first kept message that lacks a key decides the KeyError |
| Instagram.QuietModeNoticeDropped | backend/utils.py:33-35 | a quiet-mode notice is dropped whatever its other fields |
| Discord.ConvertRow | backend/utils.py:53-56 | a row converts exactly when it has four columns and a parseable timestamp, to `('discord', row[1], ts(row[2]), row[3])` |
| Discord.RowFailureOrder | backend/utils.py:53-57 | an unparseable timestamp raises ValueError even when the content column is missing; otherwise a short row raises IndexError |
| Discord.HeaderMissing | backend/utils.py:47-48 | defines `if not header`; ProcessDiscordData states the error it gives |
| Discord.FirstBadRowUnique | backend/utils.py:51-58 | at most one row is the first bad one |
| Discord.FirstBadRowExists | backend/utils.py:51-58 | when some data row fails, some row is the first to fail |
| Discord.ProcessDiscordData | backend/utils.py:46-60 | an absent or empty header is an error; otherwise it succeeds exactly when every data row converts. On success output i is the conversion of row i+1, and it has one message per data row. The first bad row is the one reported, with its failure, and every reported row is the first bad one |
| Statistics.Filtered | backend/utils.py:106-111 | the filtered list is no longer than the data and holds only selected messages of the data |
| Statistics.Selects | backend/utils.py:109-110 | defines the comprehension's condition; SelectsWidened and BothBothSeesAll state how the combinations nest |
| Statistics.HandleOf | backend/utils.py:109 | defines `users[user][msg[0]]`; UnmatchedOnlyInBothUsers and SharedNameCountsForBoth state its effect |
| Statistics.UserLabel | backend/utils.py:122 | defines `user if user else 'both_users'`; GenerateBasicStatistics states the labels against `RowLabels` |
| Statistics.PlatformLabel | backend/utils.py:123 | defines `platform if platform else 'both_platforms'`; GenerateBasicStatistics states the labels against `RowLabels` |
| Statistics.IsSpace | backend/utils.py:116 | defines the whitespace set of `str.split()` (`str.isspace`); WordsSplit and SplitDeterminesWords state the split over it |
| Statistics.WordLength | backend/utils.py:116 | the leading non-space run ends at whitespace or at the end |
| Statistics.Words | backend/utils.py:116 | `str.split()` yields non-empty words without whitespace, no more words than characters; WordsSplit and SplitDeterminesWords fix exactly which |
| Statistics.CharCount | backend/utils.py:115 | defines `char_count`; CharCountZeroIffAllEmpty and WordCountAtMostCharCount state its bounds |
| Statistics.WordCount | backend/utils.py:116 | defines `word_count`; WordCountZeroIffAllBlank states when it is zero |
| Statistics.AverageValue | backend/utils.py:117-119 | defines the float an average stands for; RowAverages states it is the mean |
| Statistics.RowFor | backend/utils.py:106-123 | a row raises ZeroDivisionError exactly when it selects messages but no words. Otherwise it carries its `both_users`/`both_platforms` labels and never divides by zero, and all three averages are 0 exactly when it selects nothing. Its counts are the length, character sum and word sum of the filtered list, and a non-empty row stores `char/msg`, `char/word` and `word/msg` |
| Statistics.GenerateBasicStatistics | backend/utils.py:98-123 | visits the combinations in the order of the constant `Combinations` (lines 98-102) and labels them as the constant `RowLabels`; succeeds exactly when all nine rows compute, and then returns them in the fixed order with their labels; otherwise returns the error of the first row that raises; the rows returned are the stored rows the marginal lemmas speak of |
| Statistics.FirstFailingUnique | backend/utils.py:104-119 | at most one combination is the first to raise |
| StatisticsProperties.ConsCounts | backend/utils.py:114-116 | proof step for the marginals: the counts of one message followed by others add up |
| StatisticsProperties.FilteredAppend | backend/utils.py:106-111 | filtering keeps the order of the data |
| StatisticsProperties.FilteredComplete | backend/utils.py:106-111 | every selected message is in the filtered list |
| StatisticsProperties.BothBothSeesAll | backend/utils.py:101-110 | the (both_users, both_platforms) row sees every message |
| StatisticsProperties.SelectsWidened | backend/utils.py:109-110 | (both_users, both_platforms) selects every message, and a combination selects a message only if widening its user or its platform to both does too |
| StatisticsProperties.PlatformMarginal | backend/utils.py:109-116 | for each user key the discord and instagram message, character and word counts add up to the both_platforms counts |
| StatisticsProperties.Matches | backend/utils.py:109 | a message's author equals at most both mapped names |
| StatisticsProperties.UserCountsAttribution | backend/utils.py:109-114 | the user1 and user2 message counts add up to the both_users messages counted once per mapped name their author equals |
| StatisticsProperties.UserMarginal | backend/utils.py:109-116 | when every author matches exactly one mapped name, the user1 and user2 message, character and word counts add up to the both_users counts |
| StatisticsProperties.AttributionTotalAtMostCount | backend/utils.py:109 | without shared names the attribution total is at most the count, and equals it exactly when every message matches a name |
| StatisticsProperties.UserMarginalExactlyWhen | backend/utils.py:109-114 | with distinct names, the user1 and user2 counts add up to both_users exactly when every message matches one of them |
| StatisticsProperties.UnmatchedOnlyInBothUsers | backend/utils.py:109-110 | a message matching neither name is in no user1 or user2 row, and is in the both_users rows of its platform |
| StatisticsProperties.SharedNameCountsForBoth | backend/utils.py:109-110 | two users with the same name on a platform both get every message under it |
| StatisticsProperties.WordsEmptyIffBlank | backend/utils.py:116 | `str.split()` gives no words exactly for whitespace-only text |
| StatisticsProperties.WordsAfterBlank | backend/utils.py:116 | leading whitespace yields no words |
| StatisticsProperties.WordsAfterWord | backend/utils.py:116 | a run without whitespace followed by whitespace or the end is the next word |
| StatisticsProperties.SplitDeterminesWords | backend/utils.py:116 | any layout of the text as words separated by non-empty whitespace runs, with optional leading and trailing whitespace, has exactly the words `str.split()` yields |
| StatisticsProperties.WordsSplit | backend/utils.py:116 | the words `str.split()` yields do lay the text out that way, so the two are the same |
| StatisticsProperties.CharCountZeroIffAllEmpty | backend/utils.py:115 | the character sum is zero exactly when every message is empty |
| StatisticsProperties.WordCountAtMostCharCount | backend/utils.py:115-116 | every word has a character, so the word sum is at most the character sum |
| StatisticsProperties.WordCountZeroIffAllBlank | backend/utils.py:116 | the word count is zero exactly when every message is blank |
| StatisticsProperties.RowFailsIffAllBlank | backend/utils.py:114-118 | a row raises exactly when it selects messages and all of them are blank |
| StatisticsProperties.NoBlankMessagesNoError | backend/utils.py:114-119 | without blank messages all nine rows compute |
| StatisticsProperties.FirstFailingExists | backend/utils.py:104-119 | when some row raises, some row is the first to raise |
| StatisticsProperties.AllBlankDataFails | backend/utils.py:104-119 | non-empty, all-blank data makes the both/both row raise, so the loop raises |
| StatisticsProperties.PlatformTriple | backend/utils.py:106-116 | the computed discord and instagram rows of one user key add up to its both_platforms row, in all three counts |
| StatisticsProperties.UserTriple | backend/utils.py:106-116 | when every author matches exactly one mapped name, the computed user1 and user2 rows of one platform column add up to its both_users row |
| StatisticsProperties.StoredPlatformMarginals | backend/utils.py:98-123 | in the nine rows the loop stores, each user's discord and instagram rows add up to that user's both_platforms row |
| StatisticsProperties.StoredUserMarginals | backend/utils.py:98-123 | in the nine stored rows, when every author matches exactly one mapped name, user1 plus user2 equals both_users in each platform column |
| StatisticsProperties.RowAverages | backend/utils.py:114-119 | avg_message_length times message_count is char_count, avg_word_length times word_count is char_count, avg_words_per_message times message_count is word_count; an empty row has averages 0 |
| WorkedExamples.SixDigitsExample | backend/utils.py:12-17 | `2023-05-01T12:00:00.123456+02:00` is second 1682935200 |
| WorkedExamples.NineDigitsExample | backend/utils.py:9-17 | `2023-05-01T12:00:00.123456789+02:00` gives the same second: the extra digits are dropped, not rounded |
| WorkedExamples.QuietModeExample | backend/utils.py:25-36 | a quiet-mode notice is dropped and `hello` at 1000 ms is kept at second 1 |
| WorkedExamples.MissingContentExample | backend/utils.py:51-58 | `["1", "2", "bad-timestamp"]` is the first bad row and raises ValueError, not IndexError |

## Left out

- File I/O and library parsing are left out: `json.load`, the UTF-8 decode, `splitlines`, and `csv.reader` quoting (backend/utils.py:23, 46). The Instagram input is its message list, with an absent key as `None`. The Discord input is its rows.
- The Flask `jsonify` responses are left out (backend/utils.py:49, 58). They are the `Err` values of `DiscordError`, which carry the row and which exception it raised, not the message text.
- The database is left out: `create_tables`, the connection and the `INSERT` (backend/utils.py:63-94, 126-133). The aggregator returns the nine rows it would store.
- The `user_id` parameter is left out: only the `INSERT` reads it.
- backend/app.py is not part of this model: Flask routes, file-kind checks and request plumbing.
- `\d` is taken as ASCII digits. Python's `re` also admits other Unicode decimal digits.
- Floats are left out. The epoch value is exact, then truncated, so for instants beyond about 2^33 seconds the model can differ from rounding to a float first. The averages are numerator and denominator pairs, not floats.
- Integers are unbounded. The BIGINT columns and C `time_t` limits are not modelled.
- The `Z` spelling of `%z` is left out: the pattern only lets a text starting with `+` reach strptime.
- `content` is taken to be a string. `str(content)` of a non-string value, and Python truthiness beyond "present and non-empty", are left out.
- Non-string `sender_name` and non-numeric `timestamp_ms` values are left out, because the message record types those fields.
- `str.split()` splits on a fixed set of whitespace code points: those `str.isspace` reports in Python 3.
