# Crypto tracker tick pipeline, in Dafny

This project models the tick of the crypto price tracker in
`backend/crypto_tracker.py`. One tick of `run_scraper` does the following,
in one database transaction:

- it fetches the BTC, ETH and XRP quotes;
- it inserts them into `prices` under one shared timestamp;
- `calculate_stats` writes one `stats` row per crypto that has at least two
  samples in the last 24 hours;
- `check_for_alerts` scans each crypto's 50 most recent samples for adjacent
  pairs whose percent change exceeds 2% in absolute value, so a rise or a
  drop, and inserts one `alerts` row per such pair;
- when there are alerts, it formats them with `format_alerts_for_slack` and
  posts the message to Slack;
- it commits, or rolls the whole tick back on any exception.

The model is imperative where the code is. The database connection is the
class `Store.Connection`. Its `committed` field holds the durable tables and
its `view` field holds what the transaction sees. Its methods are the
inserts, `commit` and `rollback`.

The loops of `calculate_stats`, `check_for_alerts` and
`format_alerts_for_slack`, and the insert loop of `run_scraper`, are methods
with loop invariants. Each is proved against a specification function:

- `Stats.StatsSpec` for the stats rows;
- `Alerts.AlertsSpec` for the alert rows;
- `Slack.MessageLines` with `Slack.Joined` for the message;
- `Tracker.TickSpec` for the whole tick.

Lemmas then prove the promised properties about those functions.

Inputs and their representation:

- **Timestamps.** Integers in microseconds (`Records.Second`, `Records.Day`).
- **The clock.** `datetime.now` is the parameter `now`.
- **Prices.** Values of type `real`.
- **The HTTP reply.** A `Tracker.Response`: either no reply (`requests.get`
  raised), or a status and the decoded JSON body.
- **The Slack side.** The webhook setting is an `Option<string>`. Whether the
  post raises is a boolean input.
- **Standard deviation.** `Series.std()` is a function parameter `std`.
- **Rendering.** How a timestamp, a price and a percentage are rendered into
  the Slack text is a `Slack.Renderers` parameter.

Constants:

- the threshold is 2 (`Tracker.VariationAlertThreshold`);
- the alert query reads the last 50 samples (`Alerts.RecentSamples`);
- the 24-hour window is `Records.Day`;
- the volatility tail is 6 samples.

Orderings:

- Cryptos are visited in ascending code-point order of their names
  (`Keys.Less`, `Keys.SortedDistinct`). That is the `groupby` key order, and
  it is the `ORDER BY crypto` then `unique()` order when the database
  collation orders names by code point.
- Within a crypto, rows are in ascending time (`sort_values('timestamp')`).
  The model states this through the store invariant `Records.TimeOrdered`:
  rows of one crypto are stored in time order. Every tick keeps it, because
  the tick's clock reading is not earlier than any stored sample
  (`Tracker.TickKeepsInvariants`).

Behaviour of the code worth knowing:

- **Interval text.** `time_interval` is `str()` of a pandas `Timedelta`,
  with everything from the first `.` cut off. Five minutes is therefore
  `"0 days 00:05:00"`
  (`Alerts.ThreePercentJump`, `Interval.FiveMinutesInterval`).
- **Slack post before commit.** The post happens before the commit, and a
  post that raises rolls the whole tick back (`Tracker.TickFailureRollsBack`).
- **Non-200 status.** The tick inserts no prices, but still writes stats and
  alerts computed over the stored samples, and commits them unless the Slack
  post raises (`Tracker.NonOkReplyStillScans`).
- **Missing quote.** A quote missing from a 200 reply raises `KeyError`, and
  the whole tick is rolled back (`Tracker.FetchPrices`).
- **No de-duplication.** Alerts are never de-duplicated. Two ticks that see
  the same samples insert the same alerts twice
  (`Alerts.CheckForAlertsTwice`, `Tracker.NonOkTicksRepeatAlerts`).
- **No zero-price guard.** There is none, so the model requires positive
  prices.

## Model

| member | source | states |
|---|---|---|
| Records.PctChange | backend/crypto_tracker.py:125 | the percent change from a base price to a later price (also lines 131 and 185); `Records.PctChangeMeaning` proves it is the difference scaled to the base, with the sign of the move |
| Records.PctChangeMeaning | backend/crypto_tracker.py:125 | the percent change times the base price is 100 times the price difference; it is positive exactly when the price rose and negative exactly when it fell |
| Records.Abs | backend/crypto_tracker.py:187 | `abs()`: never negative, and equal to the value or to its negation |
| Records.PricesOf | backend/crypto_tracker.py:136 | the price column of a group has one entry per row, and entry i is row i's price |
| Records.Last | backend/crypto_tracker.py:140 | `tail(n)`: the last min(n, length) elements, as a suffix of the input |
| Records.ChronologicalSplit | backend/crypto_tracker.py:115 | splitting a time-sorted group leaves a sorted suffix, and no row of the prefix is later than a row of the suffix |
| Keys.Less | backend/crypto_tracker.py:177 | Python's `str` order, by code point, which sets the `groupby` key order; `Keys.LessIrreflexive`, `Keys.LessTransitive` and `Keys.LessTotal` prove it a strict total order |
| Keys.LessIrreflexive | backend/crypto_tracker.py:99 | the crypto order never puts a name before itself |
| Keys.LessTransitive | backend/crypto_tracker.py:99 | the crypto order is transitive |
| Keys.LessTotal | backend/crypto_tracker.py:99 | any two distinct crypto names are ordered one way or the other |
| Keys.Insert | backend/crypto_tracker.py:114 | adding a name to a strictly sorted key list keeps it strictly sorted, with exactly the old names plus the new one |
| Keys.SortedDistinct | backend/crypto_tracker.py:114 | the distinct crypto names of the rows, strictly ascending |
| Keys.SortedDistinctKeys | backend/crypto_tracker.py:114 | a name is among the keys exactly when some row carries it |
| Keys.SortedIsDistinct | backend/crypto_tracker.py:177 | a strictly sorted key list has no repeated name |
| Keys.CryptoKeys | backend/crypto_tracker.py:114 | the loop computing `unique()` in sorted order returns `SortedDistinct`: strictly sorted, holding exactly the names occurring in the rows |
| Windows.AtOrAfter | backend/crypto_tracker.py:96-100 | the timestamp filter returns no more rows than it was given |
| Windows.RowsOf | backend/crypto_tracker.py:115 | the per-crypto selection returns no more rows than it was given |
| Windows.Window24h | backend/crypto_tracker.py:94-100 | the rows of the 24-hour query, stamped at or after one day before the clock; `Windows.AtOrAfterMembers` states which rows those are |
| Windows.Recent | backend/crypto_tracker.py:155-165 | the alert query returns the last min(50, n) rows of the crypto, as a suffix of its rows in table order |
| Windows.AtOrAfterMembers | backend/crypto_tracker.py:96-100 | a row is in the 24-hour result exactly when it is stored and stamped at or after the cutoff |
| Windows.RowsOfMembers | backend/crypto_tracker.py:115 | a row is in a crypto's group exactly when it is stored and carries that crypto |
| Windows.AtOrAfterPositive | backend/crypto_tracker.py:96-100 | filtering keeps prices positive |
| Windows.RowsOfPositive | backend/crypto_tracker.py:115 | selecting a crypto keeps prices positive |
| Windows.AtOrAfterOrdered | backend/crypto_tracker.py:99 | the time filter keeps each crypto's rows in time order |
| Windows.RowsOfChronological | backend/crypto_tracker.py:115 | with the store in per-crypto time order, a crypto's group is sorted by time, as `sort_values('timestamp')` makes it |
| Windows.AtOrAfterKeepsAll | backend/crypto_tracker.py:128 | filtering rows that all meet the cutoff keeps every one |
| Windows.WindowRefilterKeepsAll | backend/crypto_tracker.py:128 | re-filtering a group of the 24-hour query by the same cutoff keeps every row |
| Windows.RecentIsNewestSuffix | backend/crypto_tracker.py:155-165 | the alert query's rows for a crypto are at most 50 and sorted by time, and no row it leaves out is later than a row it keeps |
| Windows.WindowGroupChronological | backend/crypto_tracker.py:115 | each crypto's group of the 24-hour query is sorted by time |
| Windows.KeysAreGroups | backend/crypto_tracker.py:177 | a crypto is a `groupby` key exactly when its group is non-empty |
| Windows.RecentPositive | backend/crypto_tracker.py:155-165 | the alert query's rows have positive prices |
| Windows.RecentOfKey | backend/crypto_tracker.py:177 | every key's group in the alert query holds at least one row |
| Store.Connection.constructor | backend/crypto_tracker.py:232 | a fresh connection sees exactly the committed tables |
| Store.Connection.InsertPrice | backend/crypto_tracker.py:242-245 | the `prices` table seen by the transaction gains the row at its end; nothing is committed |
| Store.Connection.InsertStat | backend/crypto_tracker.py:144-149 | the `stats` table seen by the transaction gains the row at its end; nothing is committed |
| Store.Connection.InsertAlert | backend/crypto_tracker.py:201-205 | the `alerts` table seen by the transaction gains the row at its end; nothing is committed |
| Store.Connection.Commit | backend/crypto_tracker.py:259 | the committed tables become what the transaction sees, and they only gain rows |
| Store.Connection.Rollback | backend/crypto_tracker.py:263 | the transaction's view returns to the committed tables, which are a prefix of it: only the transaction's rows are discarded |
| StatRows.StatsOver | backend/crypto_tracker.py:114-149 | the `stats` rows the loop inserts after visiting the first n cryptos, in visiting order; `StatRows.StatsOverPerCrypto` proves each crypto holds exactly its own visit's rows, and `StatRows.StatsOverStamped` that each carries the tick's timestamp |
| StatRows.StatsOfOther | backend/crypto_tracker.py:143-149 | inserting a row for another crypto leaves a crypto's stats rows unchanged |
| StatRows.StatsOfFirst | backend/crypto_tracker.py:143-149 | the first row inserted for a crypto is its only stats row |
| StatRows.StatsOverAbsent | backend/crypto_tracker.py:114 | a crypto not yet visited has no stats row |
| StatRows.StatsOverLast | backend/crypto_tracker.py:114-149 | after visiting a not-yet-visited crypto, its stats rows are exactly what its visit inserted |
| StatRows.StatsOverAt | backend/crypto_tracker.py:114-149 | a crypto visited once has exactly the stats rows its visit inserted |
| StatRows.StatsOverPerCrypto | backend/crypto_tracker.py:114-149 | over distinct cryptos, a crypto's stats rows are what its visit inserted when it was visited, and none otherwise |
| StatRows.StatsOverStamped | backend/crypto_tracker.py:148 | every inserted stats row carries the tick's timestamp |
| Stats.MaxOf | backend/crypto_tracker.py:136 | `max()`: no price exceeds it and some price equals it |
| Stats.MinOf | backend/crypto_tracker.py:137 | `min()`: no price is below it and some price equals it |
| Stats.Change24h | backend/crypto_tracker.py:127-133 | `price_change_24h_pct`: the change from the group's first sample at or after the cutoff to its current price, `0` when there is none; `Stats.StatBaselineIsEarliest` proves the baseline is the window's earliest sample and the `0` branch unreachable |
| Stats.Volatility | backend/crypto_tracker.py:139-141 | `volume_5min`: `std` of the last six prices, `0` below two; `Stats.StatVolatilityTail` proves these are the newest samples and the `0` branch unreachable |
| Stats.StatOf | backend/crypto_tracker.py:120-149 | the stats row of a crypto with two or more samples carries the tick's timestamp and that crypto |
| Stats.StatFor | backend/crypto_tracker.py:115-118 | no row exactly when the crypto has fewer than two samples in the window; otherwise a row with the tick's timestamp and that crypto |
| Stats.RowForLabels | backend/crypto_tracker.py:148 | every row it gives is labelled with its crypto and stamped with the tick's timestamp |
| Stats.StatsSpec | backend/crypto_tracker.py:90-149 | the stats rows one `calculate_stats` writes over a `prices` table, in key order; `Stats.StatsOnePerCrypto` proves one row per crypto with two or more 24-hour samples and none for the others, and `Stats.CalculateStats` proves the method writes exactly these |
| Stats.StatsOnePerCrypto | backend/crypto_tracker.py:114-118 | `calculate_stats` writes exactly one row for each crypto with two or more samples in the last 24 hours, none for the others, and every row carries the tick's timestamp |
| Stats.StatComparesLatestPair | backend/crypto_tracker.py:121-125 | over the stored table, `current_price` and `price_change_pct` use the two newest samples of the time-sorted window group |
| Stats.LatestPairIsNewest | backend/crypto_tracker.py:121-122 | in a time-sorted group the last two rows are the two newest samples |
| Stats.StatOfBaseline | backend/crypto_tracker.py:128-131 | when every sample meets the 24-hour cutoff, `price_change_24h_pct` is the change from the group's first price |
| Stats.StatBaselineIsEarliest | backend/crypto_tracker.py:128-133 | over a store in per-crypto time order, `price_change_24h_pct` is always the change from the window's first sample, which no other sample of the group precedes, so the `0` branch is never taken |
| Stats.StatOfBounds | backend/crypto_tracker.py:136-137 | `low_24h` and `high_24h` bound every price of the group and are both attained |
| Stats.StatWithinBounds | backend/crypto_tracker.py:121-137 | low ≤ every price ≤ high, both bounds attained, and `current_price` and the 24-hour baseline price both lie within them |
| Stats.StatVolatilityTail | backend/crypto_tracker.py:140-141 | `volume_5min` is `std` of the last min(6, n) prices, which are the newest samples of the time-sorted group; that tail holds at least two prices, so the `0` fallback is never taken |
| Stats.CryptoStat | backend/crypto_tracker.py:115-149 | the loop body computes, for one crypto, the row the specification gives (or none) |
| Stats.InsertStats | backend/crypto_tracker.py:114-149 | the loop appends to `stats` exactly the rows of the visited cryptos, in visiting order, and commits nothing |
| Stats.CalculateStats | backend/crypto_tracker.py:90-149 | `stats` gains exactly `StatsSpec` of the `prices` the transaction sees, nothing else changes, and nothing is committed |
| Interval.Digit | backend/crypto_tracker.py:189 | the digit character of a value below 10 |
| Interval.NatStr | backend/crypto_tracker.py:189 | the decimal text of the day count is non-empty |
| Interval.NatStrDigits | backend/crypto_tracker.py:189 | the decimal text of the day count consists of digits only |
| Interval.Pad2 | backend/crypto_tracker.py:189 | a two-digit field is two digit characters |
| Interval.Pad3 | backend/crypto_tracker.py:189 | a three-digit field is three characters |
| Interval.WholeSecondsStr | backend/crypto_tracker.py:189 | the `Timedelta` text of a whole number of seconds has at least 15 characters |
| Interval.ClockStr | backend/crypto_tracker.py:189 | the `" days HH:MM:SS"` part has 14 characters |
| Interval.WholeSecondsNoDot | backend/crypto_tracker.py:189 | the whole-seconds text holds no `.` |
| Interval.TimedeltaStr | backend/crypto_tracker.py:188-189 | pandas' `str()` of a non-negative `Timedelta` in microseconds: `"D days HH:MM:SS"`, followed by `.` and six digits when there are sub-seconds; `Interval.IntervalTruncates`, `Interval.IntervalRoundTrip` and `Interval.FiveMinutesInterval` state its meaning after the cut |
| Interval.BeforeFirstDot | backend/crypto_tracker.py:189 | `split('.')[0]`; `Interval.BeforeFirstDotCuts` proves it is the longest prefix without a `.` |
| Interval.BeforeFirstDotCuts | backend/crypto_tracker.py:189 | `split('.')[0]` is a prefix with no `.`; when shorter than the input, a `.` follows it |
| Interval.BeforeFirstDotOfPrefix | backend/crypto_tracker.py:189 | cutting a dot-free text followed by a `.`-led suffix gives the text |
| Interval.TimeInterval | backend/crypto_tracker.py:188-189 | `time_interval`: the `Timedelta` text of a duration cut at its first `.`; `Interval.IntervalTruncates` and `Interval.IntervalRoundTrip` prove it is the text of the whole seconds and reads back as them |
| Interval.IntervalTruncates | backend/crypto_tracker.py:188-189 | `time_interval` is the text of the whole seconds, the same as the text of the duration truncated to seconds |
| Interval.IntervalIgnoresSubseconds | backend/crypto_tracker.py:188-189 | durations with the same whole seconds give the same `time_interval`, so sub-seconds are truncated, never rounded |
| Interval.NatStrValue | backend/crypto_tracker.py:189 | the day-count text reads back as the number |
| Interval.Pad2Value | backend/crypto_tracker.py:189 | a two-digit field reads back as its value |
| Interval.ClockRoundTrip | backend/crypto_tracker.py:189 | the clock part reads back as hours, minutes and seconds in seconds |
| Interval.SplitSeconds | backend/crypto_tracker.py:189 | days, hours, minutes and seconds recombine to the total |
| Interval.ParseSplit | backend/crypto_tracker.py:189 | a day count followed by the clock part is read as those two parts |
| Interval.ParseWhole | backend/crypto_tracker.py:189 | the text of days and clock fields reads back as their total in seconds |
| Interval.WholeSecondsRoundTrip | backend/crypto_tracker.py:189 | the `Timedelta` text of a whole number of seconds reads back as that number |
| Interval.IntervalRoundTrip | backend/crypto_tracker.py:188-189 | `time_interval` of any duration reads back as its whole seconds |
| Interval.ShortWholeSeconds | backend/crypto_tracker.py:189 | a duration under ten minutes with a one-digit seconds part reads `0 days 00:0M:0S` |
| Interval.FiveMinutesInterval | backend/crypto_tracker.py:188-189 | five minutes gives `"0 days 00:05:00"` |
| Interval.SubsecondTruncated | backend/crypto_tracker.py:188-189 | 1.75 seconds gives `"0 days 00:00:01"` |
| Alerts.Crosses | backend/crypto_tracker.py:185-187 | the absolute percent change of a pair exceeds the threshold, so a rise or a drop; `Alerts.PairAlertsExactly` proves an alert is emitted exactly for the pairs it holds of |
| Alerts.AlertAt | backend/crypto_tracker.py:188-198 | the alert of one pair of adjacent samples; `Alerts.PairAlertsExactly` and `Alerts.AlertIntervalReadsBack` state its fields |
| Alerts.AlertsSpec | backend/crypto_tracker.py:151-209 | the alerts one `check_for_alerts` returns over a `prices` table; `Alerts.AlertsGrouped` proves them grouped in key order and ascending in time, and `Alerts.CheckForAlerts` proves the method returns and inserts exactly these |
| Alerts.PairAlerts | backend/crypto_tracker.py:181-207 | the alerts the pair loop emits for the pairs ending before index n, in scan order; `Alerts.PairAlertsExactly` and `Alerts.PairAlertsCount` prove one alert for exactly each crossing pair, and `Alerts.PairAlertsAscending` that they ascend in time |
| Alerts.GroupAlerts | backend/crypto_tracker.py:178-207 | everything one group's scan emits; `Alerts.ScanPairs` proves the loop returns and inserts exactly these |
| Alerts.CryptoAlerts | backend/crypto_tracker.py:155-207 | the alerts of one crypto's scan over its 50 newest samples; `Alerts.AlertsForScansGroups` proves them labelled with that crypto and ascending in time, and `Alerts.ScanGroup` that the method yields them |
| Alerts.AlertsOver | backend/crypto_tracker.py:177-207 | the alerts after visiting the first n `groupby` keys, in visiting order; `Alerts.AlertsOverLabels` and `Alerts.AlertsOverGrouped` prove each belongs to a visited crypto and the list is grouped by crypto in key order |
| Alerts.PairAlertsExactly | backend/crypto_tracker.py:181-198 | an alert is emitted exactly for each pair whose change exceeds the threshold in absolute value, carrying the later sample's time, the earlier and later prices, the change and the interval |
| Alerts.PairAlertsCount | backend/crypto_tracker.py:181-207 | one alert per crossing pair: nothing is coalesced and nothing is dropped |
| Alerts.PairAlertsBounded | backend/crypto_tracker.py:191-198 | every alert of a group carries that crypto and a time no later than the group's newest sample |
| Alerts.PairAlertsAscending | backend/crypto_tracker.py:178-207 | a group's alerts are in ascending time |
| Alerts.AlertsOverLabels | backend/crypto_tracker.py:177 | every alert belongs to one of the visited cryptos |
| Alerts.GroupedAppend | backend/crypto_tracker.py:177-207 | appending the time-ordered alerts of a crypto after those of smaller cryptos keeps the list grouped |
| Alerts.AlertsOverGrouped | backend/crypto_tracker.py:177-207 | visiting cryptos in ascending order gives a list grouped by crypto in key order, ascending time within a group |
| Alerts.AlertsForScansGroups | backend/crypto_tracker.py:177-207 | each crypto's scan yields alerts labelled with it, in ascending time |
| Alerts.AlertsGrouped | backend/crypto_tracker.py:175-209 | the returned alert list is grouped by crypto in `groupby` key order, ascending time within each group |
| Alerts.AlertIntervalReadsBack | backend/crypto_tracker.py:188-189 | an alert's `time_interval` reads back as the whole seconds between the pair's samples |
| Alerts.ThreePercentJump | backend/crypto_tracker.py:181-198 | with threshold 2, prices [100, 103] five minutes apart give one alert of 3% with interval `"0 days 00:05:00"` |
| Alerts.SmallMovesNoAlert | backend/crypto_tracker.py:181-198 | with threshold 2, prices [100, 101, 99] give no alert |
| Alerts.CheckPair | backend/crypto_tracker.py:182-198 | the pair body yields an alert exactly when the change exceeds the threshold in absolute value, and it is the pair's alert |
| Alerts.ScanPairs | backend/crypto_tracker.py:181-207 | the pair loop inserts and returns exactly the group's alerts, in scan order, and commits nothing |
| Alerts.ScanGroup | backend/crypto_tracker.py:177-207 | one group's scan over its 50 most recent samples inserts and returns exactly that crypto's alerts |
| Alerts.ScanCryptos | backend/crypto_tracker.py:177-207 | the group loop inserts and returns the alerts of every crypto in key order |
| Alerts.CheckForAlerts | backend/crypto_tracker.py:151-209 | the returned list is exactly `AlertsSpec` of the `prices` seen, and `alerts` gains that same sequence |
| Alerts.CheckForAlertsTwice | backend/crypto_tracker.py:151-209 | a second call over unchanged samples returns the same alerts and inserts them again |
| Slack.BlockLines | backend/crypto_tracker.py:216-223 | one alert's block has seven lines, the last being the dashed separator |
| Slack.MessageLines | backend/crypto_tracker.py:215-223 | the message has the title, an empty line, then seven lines per alert |
| Slack.AppendBlock | backend/crypto_tracker.py:217-223 | the loop body appends exactly the alert's block to the text |
| Slack.FormatAlertsForSlack | backend/crypto_tracker.py:211-225 | `None` exactly for an empty list; otherwise the title line, an empty line and one block per alert in input order, each line ending in a newline |
| Slack.BlockAt | backend/crypto_tracker.py:216-223 | lines 2 + 7k to 2 + 7k + 6 of the message are the block of alert k |
| Slack.LineEnd | backend/crypto_tracker.py:211-225 | the first line break of a text, or its end |
| Slack.LineEndOf | backend/crypto_tracker.py:211-225 | a line without a line break ends where its newline is |
| Slack.Joined | backend/crypto_tracker.py:215-223 | the text of the `+=` chain: each line followed by a newline; `Slack.SplitJoined` proves splitting it at newlines gives the lines back |
| Slack.JoinedFront | backend/crypto_tracker.py:211-225 | the joined text starts with the first line and its newline |
| Slack.SplitJoined | backend/crypto_tracker.py:211-225 | splitting joined single lines at newlines gives those lines back |
| Slack.OneLineJoin | backend/crypto_tracker.py:217-222 | two texts without line breaks concatenate to one |
| Slack.FixedTextOneLine | backend/crypto_tracker.py:215-223 | the title, the empty line, the separator and the unit suffixes hold no line break |
| Slack.LabelsOneLine | backend/crypto_tracker.py:217-219 | the first three labels hold no line break |
| Slack.MoreLabelsOneLine | backend/crypto_tracker.py:220-222 | the last three labels hold no line break |
| Slack.BlockOneLine | backend/crypto_tracker.py:216-223 | with printable fields, every line of a block is a single line |
| Slack.MessageOneLine | backend/crypto_tracker.py:215-223 | with printable fields, every line of the message is a single line |
| Slack.MessageReadsBack | backend/crypto_tracker.py:211-225 | with printable fields, splitting the message at newlines gives back its 2 + 7n lines |
| Slack.SeparatorCountAppend | backend/crypto_tracker.py:223 | separators of two line lists add up |
| Slack.SeparatorCountNone | backend/crypto_tracker.py:223 | lines other than the separator count no separator |
| Slack.StarredIsNotDashes | backend/crypto_tracker.py:217-223 | a line starting with `*` is not the separator |
| Slack.LabelsStarred | backend/crypto_tracker.py:215-222 | every label starts with `*`, and neither the title nor the empty line is the separator |
| Slack.BlockSeparators | backend/crypto_tracker.py:216-223 | each block holds exactly one separator |
| Slack.SeparatorPerAlert | backend/crypto_tracker.py:215-223 | the message holds exactly as many separators as alerts |
| Tracker.Quote | backend/crypto_tracker.py:80-82 | `data[id]["usd"]`, or none where the lookup raises `KeyError`; `Tracker.FetchPrices` states how the fetch depends on it |
| Tracker.FetchPrices | backend/crypto_tracker.py:72-83 | no reply raises; a non-200 status gives the empty dict; a 200 reply gives the BTC, ETH, XRP prices in that order exactly when all three `usd` quotes are present, and raises otherwise |
| Tracker.FetchedPositive | backend/crypto_tracker.py:79-83 | fetched prices are the provider's positive quotes |
| Tracker.StampRows | backend/crypto_tracker.py:241-245 | one `prices` row per fetched price, in order, each with the tick's timestamp |
| Tracker.StampKeepsInvariants | backend/crypto_tracker.py:238-245 | rows stamped with a clock reading not earlier than any stored sample keep prices positive, rows time-ordered per crypto, and no row later than the clock |
| Tracker.TickPrices | backend/crypto_tracker.py:237-245 | the tick's `prices` extend the stored ones and keep the store invariants |
| Tracker.InsertPrices | backend/crypto_tracker.py:241-245 | the insert loop appends exactly the stamped rows to `prices`, and commits nothing |
| Tracker.WebhookSet | backend/crypto_tracker.py:86-87 | the truthiness of `SLACK_WEBHOOK_URL`: set and non-empty; `Tracker.SendSlackAlert` proves a post happens exactly then |
| Tracker.SendSlackAlert | backend/crypto_tracker.py:85-88 | posts exactly when the webhook is set and non-empty, and posts the message given |
| Tracker.Notification | backend/crypto_tracker.py:254-255 | the message for a tick's alerts, none when there are none; `Slack.FormatAlertsForSlack` produces it and `Tracker.TickPostsOnlyAlerts` proves it is what is posted |
| Tracker.TickSpec | backend/crypto_tracker.py:227-267 | the committed tables and the posted text after one tick; `Tracker.RunScraper` proves the method meets it, and `Tracker.TickAllOrNothing`, `Tracker.TickFailureRollsBack`, `Tracker.TickPostsOnlyAlerts` and `Tracker.TickKeepsInvariants` state its meaning |
| Tracker.RunScraper | backend/crypto_tracker.py:227-267 | the committed tables and the posted text after the tick are those of `TickSpec`, and the connection is left with nothing uncommitted |
| Tracker.TickAllOrNothing | backend/crypto_tracker.py:235-263 | a tick commits nothing, or the fetched prices together with all their stats and alerts |
| Tracker.TickSharedTimestamp | backend/crypto_tracker.py:238-245 | every row a tick adds to `prices` carries the tick's one timestamp, one per fetched price, in order |
| Tracker.NonOkReplyStillScans | backend/crypto_tracker.py:237-259 | after a non-200 status no price is inserted, yet stats and alerts over the stored samples are committed unless the Slack post raises |
| Tracker.TickPostsOnlyAlerts | backend/crypto_tracker.py:254-256 | Slack is posted to exactly when the webhook is set and the tick found alerts, and the posted text is their message |
| Tracker.TickFailureRollsBack | backend/crypto_tracker.py:261-263 | a raised fetch, or a Slack post that raises, leaves the committed tables unchanged |
| Tracker.TickKeepsInvariants | backend/crypto_tracker.py:235-259 | after a tick the committed tables extend the old ones and keep the invariants the next tick needs |
| Tracker.NonOkTicksRepeatAlerts | backend/crypto_tracker.py:251 | two non-200 ticks over the same samples commit the same alerts twice |

## Left out

- The PostgreSQL connection, `initialize_db` and its schema, and the `id` columns. The store is three sequences of rows.
- The `REAL` (single-precision) column storage of prices. Stored prices are the fetched values.
- Database write failures, and a failing `commit`. The store's operations always succeed.
- The HTTP request itself, and a reply body that is not JSON (`response.json()` raising). The reply is an input; the body is already decoded.
- The Slack HTTP post. Whether it raises is an input, and a non-2xx Slack reply does nothing, as in the code.
- `print` calls and `conn.close()`: these are logging and cleanup.
- `datetime.now` in the Europe/Paris zone, and the time-zone conversion of loaded timestamps. The clock is the integer parameter `now`.
- `Series.std()`, which needs floating-point square roots. It is the function parameter `std`; the model fixes only which prices it is applied to.
- Floating-point arithmetic. Prices and percent changes are exact `real`s, so changes at exactly the threshold are idealised.
- `time_interval` is pandas `Timedelta` text only when the `datetime64` column holds timestamps of one UTC offset, as with a database session in UTC. The alert query's `pd.to_datetime` has no `utc=True`, and timestamps of mixed offsets would give a column of Python `datetime` values, whose differences print as `"0:05:00"`, or would make the conversion raise. The model assumes one offset.
- Rendering of timestamps and prices (`str`) and of the percentage (`:.2f`) in the Slack text. These are the `Slack.Renderers` parameter.
- The message-line round trip needs rendered fields without line breaks (`Slack.Printable`).
- The database collation of `ORDER BY crypto`. It is taken to be code-point order; the two agree on the three upper-case tickers.
- The `sort_values` of each group. The model keeps every crypto's rows stored in time order instead (`Records.TimeOrdered`), which also fixes the order of equal timestamps.
- Rows carrying the same timestamp may be reordered by pandas; the model does not cover that.
- Tracker.RunScraper: requires the clock reading to be no earlier than every stored sample. That keeps the store time-ordered per crypto, which stands for the per-group sort.
- Tracker.RunScraper: requires positive stored prices, and positive `usd` quotes for the three tracked coins where a 200 reply carries them. The code has no zero-price guard, and a zero base price would divide by zero.
- Tracker.TickSpec: has the same requirements as `Tracker.RunScraper`, for the same reasons.
- Stats.CalculateStats: requires positive prices, because the code divides by the previous and the baseline price, and rows time-ordered per crypto, which stands for the per-group sort.
- Alerts.CheckForAlerts: requires positive prices, and rows time-ordered per crypto, which stands for the per-group sort.
- Records.PctChange: requires a positive base price, because the code divides by it unguarded.
- The dashboard (`frontend/dashboard.py`), which only reads the tables, and the root `crypto_tracker.py`, a separate script that creates `prices` and inserts and commits rows. Both are plumbing outside the tick.
