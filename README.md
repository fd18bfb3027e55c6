# transmission-bandwidth-limiter: a verified model of the limiter's core

`limiter.py` runs every fifteen minutes. It reads the torrent client's
cumulative transfer counter (downloaded plus uploaded bytes). For each
configured data cap it compares the counter's growth since a past reference
time with the cap. It then turns the client's alt-speed (throttle) flag on or
off and records the current counter in its `TimeSlice` table.

This project models that decision core in Dafny:

- `Units` (`units.dfy`): the unit tables and `parse_size`. The number is an
  exact decimal (mantissa, number of fraction digits), so `int(number * mult)`
  is `floor(mantissa * mult / 10^digits)`. The module also has the loop in
  `pretty_print_bytes` that picks the display unit.
- `TimeSlices` (`timeslices.dfy`): the `TimeSlice` table as a class holding
  rows sorted strictly by timestamp. `Save` fails on a duplicate timestamp,
  which models the unique index. The two queries `should_throttle` issues are
  "latest row strictly before t" and "earliest row".
- `Throttle` (`throttle.dfy`): `should_throttle`. It picks a baseline row
  (the latest row before the reference, else the earliest row) and compares
  the growth since that row with the parsed cap. An empty table gives false.
- `Limiter` (`limiter.py`'s `main`, in `limiter.dfy`): the "at least one
  limit" check of `parse_args` and one window per configured limit (now − 1
  day, now − 7 days, now − 30 days). The verdicts are or-ed without
  short-circuiting. The client flag is then reconciled with the verdict,
  and the run's sample is saved.
- `Wrappers` (`wrappers.dfy`): `Option` and `Result`, which model the
  program's exceptions and empty query results.

Timestamps are integer seconds, and the client's session is a `Session`
object with an `altSpeedEnabled` field. Its ghost `writes` log records every
`set_session` call.

## Model

| member | source | states |
|---|---|---|
| `Units.DataUnitsArePowersOf1024` | limiter.py:20-26 | the data unit at position i (b, k, m, g, t) is 1024^i bytes |
| `Units.Lower` | limiter.py:58 | lower-casing keeps the length and lower-cases every character in place |
| `Units.NumberText` | limiter.py:59 | the text given to float() holds only digits and dots, and has exactly as many digits and dots as the input |
| `Units.NumberTextConcat` | limiter.py:59 | the gathered text keeps the digits and dots in their order: the text of a concatenation is the concatenation of the texts, and a single character is kept exactly when it is a digit or a dot |
| `Units.ParseNumber` | limiter.py:59 | float() of the gathered digits and dots succeeds exactly when there is at least one digit and at most one dot. Without a dot the number is the digits' value; with one it is whole.fraction, split at that dot |
| `Units.DecimalNumberValue` | limiter.py:59 | digits, a dot and digits, with at least one digit in all, read as the decimal whole.fraction |
| `Units.FirstKey` | limiter.py:67-70 | the result is the first character that is a letter of the table, or none exactly when no character is one |
| `Units.Lookup` | limiter.py:71 | `units[unit]` returns the size the table pairs with that letter |
| `Units.Truncate` | limiter.py:71 | `int(number * multiplier)` is the largest whole number whose product with 10^digits does not exceed mantissa × multiplier |
| `Units.ParseSize` | limiter.py:53-71 | it fails with a number error exactly when the digits and dots do not form a number, which is checked before the metric. It fails with a metric error exactly when the metric is neither TIME nor DATA, and with a unit error exactly when no lower-cased character is a unit letter |
| `Units.NumberThenDataUnit` | limiter.py:58-71 | a number followed by a data-unit letter parses to that number times the unit's size, truncated |
| `Units.FractionDataSize` | limiter.py:58-71 | whole.fraction followed by the k-th data letter parses to whole.fraction × 1024^k, truncated |
| `Units.WholeDataSize` | limiter.py:20-26 | a whole number n followed by the k-th data letter parses to n × 1024^k |
| `Units.ParseSizeIgnoresCase` | limiter.py:58 | upper-casing the size string does not change what parse_size returns |
| `Units.TenGibibytes` | limiter.py:6-7 | "10g" and "10G" both parse to 10 × 2^30 |
| `Units.OneAndAHalfMebibytes` | limiter.py:58-71 | "1.5M" parses to 1.5 × 2^20 |
| `Units.ThreeTenthsKibibyte` | limiter.py:71 | "0.3k" is 307.2 bytes truncated to 307 |
| `Units.MalformedNumbers` | limiter.py:59 | "bogus", "1.2.3g" and "" fail on their number, even though "bogus" holds the unit letter b and "" comes with an unknown metric |
| `Units.MetricAndUnitErrors` | limiter.py:60-70 | a good number with an unknown metric gives the metric error; one with no unit letter gives the unit error |
| `Units.PrettyPrintUnit` | limiter.py:43-50 | the chosen unit is the largest one whose size is at most n, or B when n < 1024 (0 and negative amounts included). The next larger unit always exceeds n, so size ≤ n < 1024 × size below T |
| `TimeSlices.LatestBefore` | limiter.py:106-107 | the result is a row strictly before t with the greatest such timestamp, and none exactly when no row is before t |
| `TimeSlices.Earliest` | limiter.py:111 | the result is a row with the smallest timestamp, and none exactly when the table is empty |
| `TimeSlices.InsertSorted` | limiter.py:94 | adding a row with a new timestamp keeps the rows strictly sorted and adds exactly that row |
| `TimeSlices.RecordedSampleIsNextBaseline` | limiter.py:167 | once the run's row is saved, it is the baseline of any window whose reference lies after it |
| `TimeSlices.TimeSliceTable.Save` | limiter.py:94-95 | a duplicate timestamp is refused and leaves the table unchanged; otherwise the table gains exactly the new row and stays sorted |
| `Throttle.Baseline` | limiter.py:105-111 | the baseline is a row of the table, none exactly when the table is empty. It is the latest row before the reference when one exists, else the earliest row |
| `Throttle.ShouldThrottle` | limiter.py:102-121 | an empty table gives false for every usage and limit. Otherwise it fails exactly when the limit does not parse, with that error; when the limit parses, the verdict is exactly current − baseline usage > cap, so a true verdict means some row is more than the cap below the current usage |
| `Throttle.NoGrowthNeverThrottles` | limiter.py:115-121 | if the current usage is no higher than the baseline's, the verdict is never to throttle: the growth is not clamped, but caps are never negative |
| `Throttle.ThrottleGrowsWithUsage` | limiter.py:115-120 | a higher current usage never turns a throttle verdict off |
| `Throttle.SingleRowBaseline` | limiter.py:105-111 | with a single row, that row is the baseline for every reference time |
| `Throttle.ElevenGibibytesOverTenGibibyteDay` | limiter.py:150-152 | daily cap "10g", one row 2 hours ago at 5 GiB, 16 GiB now: the verdict is to throttle |
| `Throttle.MalformedLimitUnreadOnEmptyTable` | limiter.py:112-114 | a limit that does not parse gives false rather than an error while the table is empty |
| `Limiter.CheckLimits` | limiter.py:84-86 | the configuration is refused exactly when every limit is missing or empty |
| `Limiter.Windows` | limiter.py:150-158 | there is one window per configured limit, at now − 1 day, now − 7 days and now − 30 days |
| `Limiter.WindowsOrder` | limiter.py:150-158 | the windows come in the order they are evaluated, daily, weekly, monthly: each reaches further back than the one before, which decides whose error a run reports when two limits are unreadable |
| `Limiter.VerdictReadsEveryWindow` | limiter.py:148-158 | the combined verdict is available exactly when every configured window's limit is readable, because the or-assignment does not short-circuit |
| `Limiter.VerdictIsAnyWindow` | limiter.py:148-158 | the combined verdict is true exactly when some window's verdict is true |
| `Limiter.EmptyTableNeverThrottles` | limiter.py:148-158 | on an empty table the combined verdict is false, whatever the limits are |
| `Limiter.Decide` | limiter.py:148-158 | the or-accumulation over daily, weekly and monthly, which stops at the first unreadable limit, computes the combined verdict |
| `Limiter.Session.SetAltSpeed` | limiter.py:163 | `set_session` sets the flag and is recorded as one write |
| `Limiter.Run` | limiter.py:147-167 | with no limit, or when a limit is read and does not parse, nothing changes. Otherwise the flag ends equal to the verdict and is written only if it differed. The table then gains exactly the row (now, usage); on a duplicate timestamp the save fails after the flag was set, and the table is unchanged |

## Notes on behaviour

These follow the code of `limiter.py`:

- `parse_size` truncates the product (`int(...)`). It does not round it.
- `parse_size` reads the number before it looks at the metric or the unit.
  So "bogus" fails because it has no number, although it holds the unit
  letter b.
- A limit string is parsed only inside `should_throttle`, after a baseline
  row is found. A malformed limit is therefore not refused at start-up. The
  first run on an empty table succeeds and records its row. The error comes
  from the second run on.
- `pretty_print_bytes` is well defined for 0 and for negative amounts. The
  first unit, B, is always taken, and no later unit qualifies.
- There is no monthly reset boundary and no pruning of old rows. A daily
  limit is checked against one window only (one day back). Weekly and
  monthly limits are likewise checked against one window each.

## Left out

- Argument parsing (`argparse`), URL parsing, `.env` loading and the
  construction of the RPC client (limiter.py:74-83, 131-141) are
  configuration and network plumbing. Only the "at least one limit" rule is
  kept. The current usage is an input to `Run`; the model does not cover how
  `session_stats` is read (including its default of 0 for missing counters).
- The `TimeSlice.Meta` re-parse of the command line at import time
  (limiter.py:97-99) is left out, because it only opens the database. Its
  one observable effect, failing when no limit is given, is the check
  `Run` performs first.
- SQLite and peewee: table creation, the `with db:` transactions and
  `DoesNotExist` are left out. The table is an in-memory sorted sequence. A
  failed query is `None`, and a failed save leaves the rows unchanged.
- Timestamps are integer seconds, compared as integers. The program stores
  timezone-aware datetimes as text and re-reads the baseline's text with
  `strptime` and the format `'%Y-%m-%d %H:%M:%S.%f%z'` on every call that
  finds a baseline (limiter.py:116). A datetime whose microseconds are zero is
  stored without a fractional part, so that format raises ValueError and the
  run aborts before any flag write or save. The model does not represent this
  failure: it treats every baseline as readable.
- Logging (limiter.py:36-40 and the log calls) is left out, and so is the
  `%.2f` text of `pretty_print_bytes`.
- PrettyPrintUnit: returns the chosen unit's position and upper-case letter,
  not the formatted quotient, because the text is only used in log messages.
- ParseSize: lower-cases ASCII letters only and treats only '0'-'9' as
  digits. Python's `str.lower` and `str.isdigit` also accept other Unicode
  characters. The number is exact rather than a float, so the model can
  differ where float rounding matters: more than about 15 significant
  digits, or a number too large for a float.
- Usage values are unbounded integers. The table column is a 64-bit integer.
- The client flag is one field. The program reads it through three separate
  `get_session()` calls (limiter.py:159-164), and the model assumes the flag
  does not change between them.
- The `time_units` table is modelled, and `parse_size` accepts the TIME
  metric. No caller in `limiter.py` uses it.
