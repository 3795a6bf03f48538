# DasCrazy, modelled in Dafny

DasCrazy collects the chat of a Twitch channel and studies "das crazy"
moments: a chat message containing "crazy". This project models three
sequential parts of it and proves what each one promises.

- **The clean pass** (`clean.dfy`, module `Clean`). This is clean.py's one
  walk over the raw chat rows. A row is kept when its lowercased message
  contains `"crazy"` and it was sent at least 30 seconds after the last
  kept row, the indicator. `CleanRows` is the loop. `Filter` is its
  specification, and the lemmas prove the pass's properties about `Filter`.
  Timestamps are whole microseconds.
- **The IRC session** (`chat.dfy`, module `Chat`). This is the `Chat` class
  of Chat.py.
  - The socket is replaced by an endpoint of two fields: `outbox`, every
    line sent, and `inbox`, the chunks the server has still to deliver.
    A chunk is either decoded text or a chunk that is not valid UTF-8.
  - The constructor sends the `PASS`/`NICK`/`JOIN` handshake and throws
    away five reads.
  - `Fetch` classifies one chunk.
  - `_FETCH_PATTERN` under `re.search` is specified as a predicate over
    positions, `MatchesAt`. The match Python reports is fixed by its
    backtracking order, `Precedes`. `Search` finds that match and is
    proved to find it.
- **The week grid and the ranking** (`heatmap.dfy` and `mentions.dfy`),
  from main.py.
  - Days are `date.toordinal()` values. An ordinal divisible by 7 is a
    Sunday, the first row of `DAYS`. Python's `date.weekday()`, with
    Monday as 0, is `(toordinal() + 6) % 7`.
  - `WeekSpan` widens the span of days to whole weeks. `FillGrid` fills
    the 7 × n_weeks grid column by column, in place. The lemmas prove
    that the grid holds every event exactly once.
  - `TopUsers` is `value_counts().drop("braedynl_")[:top]`.
- Shared pieces:
  - `text.dfy` (module `Text`) holds lowercasing, substring search and
    Python's `str.strip`.
  - `counting.dfy` (module `Counting`) holds `collections.Counter`.
  - `results.dfy` holds `Option` and `Result`.

Where the code raises, the model returns an error value:

| code | error value |
|---|---|
| `min()` of an empty table | `Heatmap.HeatmapError.NoData` |
| date arithmetic before `date.min` or after `date.max` | `Heatmap.HeatmapError.OutOfRange` |
| `drop` of a label that is not there | `Mentions.MentionsError.KeyError` |

Two details of the code worth knowing:

- The keep-alive reply is the bare line `PONG\n`. The ping's payload is
  not echoed.
- `fetch` does no keyword filtering. The keyword test is made later, by
  the clean pass.

## Model

| member | source | states |
|---|---|---|
| Clean.CleanRows | clean.py:12-22 | The loop's output is `Filter` of the input. Throughout the loop, the indicator is the last row kept so far, or none. |
| Clean.FilterIsSubsequence | clean.py:14-22 | The output is a subsequence of the input, in input order. |
| Clean.FilterMentionsAndSpaced | clean.py:15-22 | Every kept row's lowercased message contains "crazy". Consecutive kept rows are at least 30 s apart. |
| Clean.FilterOfPrefix | clean.py:14-22 | The rows kept from a prefix of the input are a prefix of the rows kept from all of it. |
| Clean.FirstMentionKept | clean.py:12-22 | The first row that mentions "crazy" is always kept, and it is the first output row. |
| Clean.DroppedIff | clean.py:20-22 | A row that mentions "crazy" is dropped exactly when a row was kept before it and it was sent less than 30 s after the latest kept one. Otherwise it is appended. Both directions are proved. |
| Clean.EarlierTimestampDropped | clean.py:20 | A negative difference counts as less than 30 s: rows at 100 s and 90 s keep only the first. |
| Clean.NonMentionsIrrelevant | clean.py:15-21 | Removing the rows that do not mention "crazy" leaves the output unchanged. |
| Clean.FilterKeepsSpaced | clean.py:14-22 | Rows that all mention "crazy" and are already 30 s apart pass through unchanged. |
| Clean.FilterIdempotent | clean.py:14-22 | Cleaning the output again changes nothing. |
| Text.Lower | clean.py:15 | The lowercased message has the same length, and each character is mapped by ASCII lowercasing. |
| Text.Strip | Chat.py:60 | `resp.strip()` starts where the leading whitespace of `resp` ends, only whitespace follows it in `resp`, and it neither starts nor ends with whitespace. |
| Text.StripPadded | Chat.py:60 | A line without whitespace at its ends, followed by a whitespace ending such as `\r\n`, strips back to the line. |
| Chat.Search | Chat.py:8 | When the result is a match, it is the one `re.search` reports: every other match comes after it in backtracking order. No result means no match exists. |
| Chat.FetchGroups | Chat.py:59-64 | None exactly when the stripped text has no match. Otherwise the result is the two groups of the reported match: the user between `:` and `!`, and the message after `PRIVMSG #<join> :` up to the end of the line. |
| Chat.PrivmsgLineFetched | Chat.py:8 | For a line `:<nick>!<ident>@<host>.tmi.twitch.tv PRIVMSG #<join> :<msg>` followed by any whitespace ending, the groups are exactly `(nick, msg)`. The conditions: nick, ident, host and join are login names (letters, digits, `_`); msg has no line feed, does not contain the text `.tmi.twitch.tv PRIVMSG #<join> :`, and is empty or ends in a non-whitespace character. (Trailing whitespace of msg would be stripped, and a quoted copy of that text would be reached by the greedy `.*`.) |
| Chat.Chat.constructor | Chat.py:39-46 | The outbox is exactly the `PASS`, `NICK` and `JOIN` lines, in that order. The first five inbound chunks are consumed and unused. |
| Chat.Chat.Send | Chat.py:42-44 | Appends exactly the one line to the outbox and leaves the inbox alone. |
| Chat.Chat.Recv | Chat.py:45-46 | Takes exactly one chunk. A closed connection yields empty text. |
| Chat.Chat.Fetch | Chat.py:48-64 | Consumes exactly one chunk. An undecodable chunk gives None and sends nothing. Text starting with "PING" sends exactly one `PONG\n` and gives None, even when it would match. Other text sends nothing and gives the groups of `FetchGroups` with the clock value read before the read, or None. |
| Chat.PingThenMessage | Chat.py:39-64 | Over a whole session (handshake, a PING, then a chat line in the joined channel), the PING gives None and the line gives `(nick, msg, t2)`. The outbox is the handshake followed by one PONG. |
| Counting.Tally | main.py:172 | The `Counter` holds exactly the days that occur, and each day's count is its multiplicity. |
| Heatmap.Weekday | main.py:31 | The row of `DAYS` of an ordinal is in 0..6 and differs from it by a multiple of 7. The name in that row is the day's weekday as `date.weekday()` gives it, `WEEKDAY_NAMES[(d + 6) % 7]`. |
| Heatmap.WeekSpan | main.py:173-178 | No days gives `NoData`. Otherwise the result is a success exactly when every day lies in [7, 3652054), and `OutOfRange` when not. On success: start and stop are the least and greatest day; `dstart` is the Sunday on or before start; `dstop` is the first Sunday after stop (stop + 7 when stop is itself a Sunday); `dstop - dstart == 7 * n_weeks` with n_weeks ≥ 1. |
| Heatmap.CellOfDay | main.py:182-187 | Each day of `[dstart, dstop)` is at row `(d - dstart) % 7` and column `(d - dstart) / 7` of the grid, and at no other cell. |
| Heatmap.EventDayHasCell | main.py:173-187 | Every day from the first event to the last has a cell in row `Weekday(d)`, and `DAYS` names that row with the day's `date.weekday()` name. |
| Heatmap.FillGrid | main.py:179-187 | Produces two fresh 7 × n_weeks arrays in which cell `[row, col]` is day `dstart + 7*col + row` and holds that day's count. |
| Heatmap.DasCrazyHeatmap | main.py:172-187 | Fails exactly as `WeekSpan` does. On success, every cell holds its day and that day's number of events (0 on a day without events), and the grid's counts add up to the number of events. |
| Heatmap.GridHoldsEveryEvent | main.py:172-187 | When the weeks cover every day, each cell's count is the multiplicity of its day and the cells sum to the number of events. |
| Heatmap.RangeTotalOfTally | main.py:172-186 | Over a range holding every day, the day counts add up to the number of events. |
| Mentions.Rank | main.py:86 | The ranking is a permutation of the entries. |
| Mentions.RankRanked | main.py:86 | The ranking is ordered by count, highest first. |
| Mentions.ValueCounts | main.py:86 | There is one entry per distinct user, ordered by count, highest first. Each entry counts exactly that user's rows, and every count is at least 1. |
| Mentions.Drop | main.py:86 | `KeyError` exactly when the label is absent. Otherwise the result is the ranking without that label's entry. |
| Mentions.Head | main.py:86 | `[:top]` is a prefix of length `min(top, n)` for `top ≥ 0`, and of length `max(0, n + top)` for a negative `top`. |
| Mentions.TopUsers | main.py:86 | `KeyError` exactly when "braedynl_" sent nothing. Otherwise the result never contains "braedynl_". It is ordered by count, highest first, with no user twice and true counts, and it has at most `top` entries. |
| Mentions.OmittedCountNoMore | main.py:86 | No user left out sent more rows than the last user kept. With `top ≥ 0`, a user is left out only when the list has exactly `top` entries. |

## Left out

- Plotting is not modelled: the matplotlib/seaborn calls, the colour bar and the bar chart in `user_mentions`. This includes the `freqs.index[0]` lookup, which fails on an empty ranking, and the mismatch between `top` bar positions and a shorter ranking.
- `das_crazy_distribution`, `das_crazy_pmf` and `das_crazy_cdf` are floating point and scipy.
- `das_crazy_timeline` exists only to feed a plot.
- generate_test.py is random data written to CSV.
- collect.py is not part of this model. It is an endless print loop, and it unpacks a `None` from `fetch` without a check.
- util.py and the CSV reading and writing in clean.py are file I/O. The model works on in-memory rows.
- Reading `top100_users.txt` is file I/O.
- Not modelled in `Chat`:
  - the socket, DNS and `connect`;
  - the receive buffer size: one `recv` is one chunk, as the server delivers it;
  - partial sends.
- UTF-8 decoding is a flag on each chunk.
- `datetime.now()` is the parameter `now`, the value read just before the read.
- `join_username` is assumed to contain no regular-expression metacharacters, since it is put into the pattern unescaped. Only the one PRIVMSG pattern is specified, not general regular expressions.
- Text.Lower: lowercasing is ASCII only. This is exact for the keyword test. The only non-ASCII characters whose Python lowercase holds ASCII letters are U+212A, which lowers to `k`, and U+0130, which lowers to `i` followed by U+0307. Neither letter is in "crazy".
- A missing (NaN) message in the CSV is not modelled: rows always hold text.
- Timestamps are whole microseconds. Sub-microsecond pandas precision is not modelled.
- Heatmap.FillGrid: the `dates` cells hold the ordinal of the day instead of its `strftime("%m/%d")` label.
- Heatmap.DasCrazyHeatmap: it takes the calendar days of the events; turning a timestamp into its `date` is not modelled.
- Mentions.Rank: pandas does not fix the order of users with equal counts. The model keeps the first-seen order, and no contract depends on it.
- The reconnecting collector, the stream metadata fetcher and the liveness polling have no code in the files this model covers.
