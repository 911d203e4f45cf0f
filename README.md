# Commit pipeline of the portfolio's meta page

This project models the data side of the portfolio's `meta` page. That page reads a per-line commit log (`loc.csv`, one row per changed source line), groups the rows into commits, and reports summary statistics. The model covers three pieces of `meta/main.js`:

- **Row normalisation**: the callback that `loadData` passes to `d3.csv`. Each CSV row keeps all of its columns. `line`, `depth` and `length` are coerced to numbers. `date` becomes a Date built from the date, midnight and the timezone. `datetime` becomes the fixed-pattern parse (`%Y-%m-%d %H:%M:%S`) or, when that parse fails, `new Date` applied to the raw text.
- **Commit aggregation** (`processCommits`): the key column is `commit` when the first row has it, else `commit_hash`. The rows are grouped by key, and groups come out in first-appearance order. Each group becomes one commit record. That record has the key as id, a GitHub URL, the first row's author, date, time, timezone and datetime, the hour fraction `hours + minutes/60`, and `totalLines`.
- **Statistics** (the values `renderCommitInfo` displays): total commits, total rows, the number of distinct files (or `'N/A'` when the first row has no `file` column), and the busiest time of day (Morning, Afternoon, Evening, Night).

Modules:

- `Wrappers`: `Option`. `None` stands for JavaScript's `undefined`, and for a `null` parse.
- `Groups`: the d3 helpers the pipeline uses, written as recursive functions with the behaviour d3 documents:
  - `d3.groups` is a single pass that appends each row to its key's group, or opens a new group at the end;
  - `d3.rollups` counts each group;
  - `d3.greatest` replaces its candidate only on a strictly greater value.

  `GroupBy` is proved against an independent description of a grouping (`IsGrouping`).
- `Rows`: field values, Dates, rows as maps from column name to value, and the row callback.
- `Commits`: `processCommits` and the partition and order lemmas about it.
- `Stats`: period bucketing, file count, most productive period, the metrics record, and an end-to-end lemma.
- `Scenario`: worked examples: three rows with a clear winner, and two rows with a tie.

Foreign services become parameters. The `Host` datatype carries `d3.timeParse`, `new Date(string)` and unary `+`. `ProcessCommits` takes `show`, which is JavaScript's `String()` applied to a non-text key when the URL is built. A valid Date is abstracted to its epoch milliseconds and its local hour (0..23) and minute (0..59). An Invalid Date is a separate case, and its getters give NaN.

Behaviour of the code worth noting:

- Rows whose numbers do not parse are kept, with NaN.
- A row whose timestamp is unreadable keeps an Invalid Date. A commit whose first row has an unreadable timestamp gets an Invalid Date as its `datetime` and NaN as its hour fraction, and is still emitted. Unreadable timestamps on its later rows do not affect it.
- Ties for the busiest period go to the period that first occurs in the rows.
- Periods count rows, not commits.
- The file count is taken over all rows.
- An empty dataset makes `renderCommitInfo` throw at `data[0]`, so the statistics require a non-empty dataset.
- The code has no brush, time slider, filter engine or per-language breakdown.

## Model

| member | source | states |
|---|---|---|
| `Rows.Normalize` | meta/main.js:9-16 | the normalised row has the CSV row's columns plus `line`, `depth`, `length`, `date`, `datetime`; every other column is carried over unchanged as text; the three numeric columns are the numeric coercion of the raw text (NaN when absent); `date` is `new Date(date + 'T00:00' + timezone)`; `datetime` is the parsed Date, so every normalised row has a Date in `datetime` |
| `Rows.ParseDateTime` | meta/main.js:8 | the pattern parse's Date when that parse succeeds, otherwise `new Date` of the same raw text |
| `Rows.NumberField` | meta/main.js:11-13 | `+row[c]`: the coercion of the field's text, NaN for a missing field |
| `Rows.LoadRows` | meta/main.js:7-17 | one normalised row per CSV row, same order, same count |
| `Commits.KeyColumn` | meta/main.js:24 | the key column is `commit` exactly when the first row has that field, else `commit_hash` |
| `Commits.KeyText` | meta/main.js:30 | a text id is used as is; a missing id renders as "undefined" |
| `Commits.HourFraction` | meta/main.js:36-37 | a number exactly when `datetime` is a valid Date, equal to the hour plus the minute divided by 60: it lies in [0, 24), its integer part is the hour and its fractional part times 60 is the minute; NaN exactly for an Invalid Date; null exactly when `datetime` is not a Date |
| `Commits.MakeCommit` | meta/main.js:26-41 | id is the group key; url is the fixed prefix plus the id; author, date, time, timezone, datetime are those of the group's first row; hourFrac derives from that datetime; totalLines is the group size, which is positive; lines are the group's rows |
| `Commits.ProcessCommits` | meta/main.js:22-43 | empty result for missing or empty input; otherwise between 1 and as many commits as rows, each with positive totalLines equal to its row count and the URL built from its id |
| `Commits.CommitsMatchKeys` | meta/main.js:24-25 | commit ids are distinct; each commit's lines are exactly the rows with its key, in input order; totalLines counts them |
| `Commits.CommitsCoverRows` | meta/main.js:25 | every row's key value is the id of some commit |
| `Commits.CommitLinesSumToRows` | meta/main.js:23-38 | the sum of totalLines over all commits equals the number of input rows (0 for missing input) |
| `Commits.CommitsInFirstAppearanceOrder` | meta/main.js:25-27 | each id occurs in the rows; commits are ordered by the first occurrence of their id; a commit's first line, which its copied fields come from, is the first row with its id |
| `Groups.GroupBy` | meta/main.js:25 | `d3.groups`: no more groups than rows, none when there are no rows, and no empty group |
| `Groups.GroupByCorrect` | meta/main.js:25 | `d3.groups` output is a grouping: each group holds exactly the rows with its key, every key occurs, groups follow the first occurrence of their keys, every row's key has a group, and keys are distinct |
| `Groups.GroupBySize` | meta/main.js:25 | the group sizes add up to the number of rows |
| `Groups.GroupByCountsKeys` | meta/main.js:165 | the number of groups (`d3.group(...).size`) equals the number of distinct key values |
| `Groups.IndexOfKey` | meta/main.js:25 | lookup of a key among the groups: the first group with that key, or past the end when none has it |
| `Groups.FirstIndex` | meta/main.js:25 | the first row carrying a key, or past the end when none does |
| `Groups.MatchingHead` | meta/main.js:26 | the first row of a key's group is the first row in the data with that key |
| `Groups.CountPositive` | meta/main.js:25 | a key has at least one row exactly when it occurs in the data |
| `Groups.Rollup` | meta/main.js:168-178 | `d3.rollups` with `v => v.length`: the groups' keys in order, each with the number of rows carrying it, which is positive |
| `Groups.GreatestAt` | meta/main.js:179 | `d3.greatest`: none exactly for an empty input; otherwise an element no other exceeds, and every earlier element is strictly smaller, so the first maximal one wins |
| `Stats.PeriodOf` | meta/main.js:171-177 | Morning exactly for hours 5-11, Afternoon for 12-16, Evening for 17-20, Night for every other hour and for an Invalid Date |
| `Stats.PeriodMatchesHourFraction` | meta/main.js:36-37 | for a valid Date, the bucket agrees with the hour fraction's range |
| `Stats.NumFiles` | meta/main.js:165 | 'N/A' exactly when the first row has no `file` field; otherwise the number of distinct `file` values, at least 1 and at most the number of rows |
| `Stats.MostProductive` | meta/main.js:168-179 | no period exactly when there are no rows |
| `Stats.MostProductiveIsFirstMaximal` | meta/main.js:168-180 | the reported period has a positive row count no other period exceeds; a different period with the same count first occurs later in the rows |
| `Stats.ProductiveLabel` | meta/main.js:180 | the text is 'N/A' exactly when there are no rows |
| `Stats.CommitStats` | meta/main.js:162-180 | Total Commits is the commit count; Total LOC is the row count; the file metric is 'N/A' exactly when the first row has no `file` field and otherwise the number of distinct `file` values; the period text names the most productive period, so it is one of the four period names and never 'N/A' |
| `Stats.PipelineTotals` | meta/main.js:184-187 | over a loaded non-empty CSV: Total LOC is the CSV row count, the commits' totalLines add up to it, and there are between 1 and that many commits |
| `Scenario.ExampleCommits` | meta/main.js:22-43 | two "a1" rows at 08:30 and one "b2" row at 20:00 give commits a1 (2 lines, hourFrac 8.5, its URL) and b2 (1 line, hourFrac 20.0) |
| `Scenario.ExamplePeriods` | meta/main.js:168-179 | for those rows the most productive period is Morning (two rows against one) |
| `Scenario.ExampleTie` | meta/main.js:168-179 | an Evening row followed by a Morning row: both periods count one row, and Evening wins because it occurs first |

## Left out

- Fetching and CSV parsing of `loc.csv` by `d3.csv` are I/O. The model starts from the parsed rows as maps from column to text.
- The internals of `d3.timeParse`, `new Date(...)`, unary `+` and `String()` are library and host behaviour. They are the parameters `Host` and `show`.
- Numbers are a finite value or NaN. JavaScript's infinities are not distinguished from finite values.
- Numbers are exact reals, not IEEE doubles, so rounding is not modelled: the hour fraction of 08:20 is exactly 25/3 where JavaScript gives 8.333333333333334. The range and integer-part properties hold either way.
- A CSV without a `datetime` column makes the source call `new Date(undefined)`, which is always an Invalid Date; the model passes the text "undefined" to the host's `newDate`, whose result it leaves open.
- The local time zone is not modelled. The hour and minute that `getHours`/`getMinutes` return are part of the abstract valid Date.
- Keys are compared by value. This matches `d3.groups` for the text ids that `commit`/`commit_hash` hold. The model does not capture how d3's InternMap compares Date or NaN keys.
- The non-enumerable `lines` property is an ordinary field of the commit record.
- The tooltip helpers, `renderScatterPlot` and the DOM writes of `renderCommitInfo` are page drawing, and are not modelled.
- The `main` entry point only awaits the load and calls the three functions in order. It appears only as the composition in `Stats.PipelineTotals`.
- `global.js` and `projects/projects.js` are page chrome and a pie chart with no data logic, and are not part of this model.
- Stats.CommitStats: requires a non-empty dataset, because `renderCommitInfo` throws at `data[0]` on an empty one. The rows must carry a Date in `datetime`, because `getHours` throws otherwise. Normalised rows always do.
- Stats.NumFiles: requires a non-empty dataset for the same `data[0]` reason.
