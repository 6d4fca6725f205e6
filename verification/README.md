# Running vs downtime dashboard: a Dafny model of its data pipeline

The dashboard reads a table of daily records (date, day name, theoretical
hours, downtime), cleans it, lets the user pick a date range, and draws the
daily running and downtime hours next to their monthly totals. This project
models the pure part of that flow, in `app.py`:

- **Loading and cleaning** (`load_and_clean_data`, module `Cleaning`). The
  four columns are named by position. Rows whose date cell is blank are
  dropped, and the remaining dates are parsed. A day whose name lower-cases to
  `samedi` or `dimanche` gets its downtime set to zero. `Running` is then
  computed as theoretical hours minus the corrected downtime, floored at zero.
- **Date-range filter** (module `Filtering`). A selection of exactly two
  dates keeps the records dated from the first to the second, both included.
  Any other selection shows a prompt instead of charts. The selector first
  offers the earliest and latest dates of the table.
- **Monthly totals** (module `Monthly`). Records are grouped by their
  `%Y-%m` label, running and downtime hours are summed per label, and the
  groups come out in ascending label order.
- **One run** (module `Dashboard`). A run either fails with the load error,
  prompts for a complete range, or produces the filtered records and their
  monthly totals.

Supporting modules: `Wrappers` (`Option`, `Result`), `Text` (ASCII
lower-casing, Python's code-point order on strings, zero-padded digits) and
`Dates` (calendar dates in chronological order). `WorkedExample` proves what
cleaning and the monthly totals give for a Friday, Saturday and Sunday of
March 2024.

Hours are exact `real`s. Dates are already-parsed `(year, month, day)`
values (`Dates.ValidDate`): real calendar days from 22 September 1677 to
11 April 2262, the whole days a 64-bit nanosecond timestamp can hold. A date
outside that span fails to parse like any other bad date. A date cell is
`Missing`, `Parsed(date)` or `Unparseable`. A day name is `None` when its
cell is blank or holds something other than text.

Behaviour of the code that the model keeps:

- `app.py:18` assigns exactly four column names, so pandas rejects a table of
  any other width. `Load` fails with `ColumnCount` whenever the width is not
  four.
- `app.py:22` parses the whole date column at once, so a single unparseable
  date fails the load (`DateParse`).
- `app.py:26` calls string methods on the day column. When no day cell of a
  non-empty table holds text, pandas reads the column as numbers and the
  call raises, so `Load` fails with `DayNamesNotText`. When some cells hold
  text, a blank cell lower-cases to NaN, which is not a weekend name.
- The group-by at `app.py:64` sorts the label strings. `Monthly.MonthLabelOrder`
  proves this is chronological month order for valid dates.
- A range whose start comes after its end is not special-cased, so it keeps
  nothing.

## Model

| member | source | states |
|---|---|---|
| Text.LowerMatchesWord | app.py:26 | lower-casing a string gives an all-letter lower-case word exactly when the string spells that word, each letter in either case |
| Text.Lower | app.py:26 | the result has the same length and no ASCII capitals; each capital becomes its small letter and every other character is unchanged |
| Cleaning.IsWeekend | app.py:26 | a day name is a weekend day exactly when it is present and spells "samedi" or "dimanche" in any mix of upper and lower case; a blank or non-text cell is not |
| Cleaning.Running | app.py:31 | running time is at least zero, at least theoretical minus downtime, and equal to one of the two, so it is their maximum |
| Cleaning.CleanRow | app.py:26-31 | a weekend row gets downtime 0 whatever its input; any other row keeps its downtime; date, day name and theoretical hours are unchanged; running is computed from the corrected downtime |
| Cleaning.CleanRows | app.py:21-31 | every output record is weekend-consistent with non-negative running and comes from an input row with that parsed date; every row with a parsed date survives; there are no more outputs than inputs |
| Cleaning.CleanRowsAppend | app.py:21 | cleaning distributes over concatenation, so survivors keep their relative order |
| Cleaning.CleanRowsSingle | app.py:21 | one row survives exactly when its date cell holds a parsed date, and a blank date drops it |
| Cleaning.Load | app.py:18-26 | any width other than four columns fails with ColumnCount; then one unparseable date fails with DateParse; then a non-empty table whose day cells hold no text fails with DayNamesNotText; the load succeeds exactly in the remaining cases, with the cleaned rows |
| Cleaning.CleanRowFixesConsistent | app.py:26-31 | a record that already satisfies the weekend and running rules is unchanged by cleaning it again |
| Cleaning.CleanReloadedConsistent | app.py:26-31 | writing consistent records back as rows and cleaning them gives the same records |
| Cleaning.CleanIdempotent | app.py:21-31 | cleaning the cleaned table again changes nothing, and running values are reproduced exactly |
| Filtering.FilterWindow | app.py:46-47 | a record is kept exactly when it is in the input and start <= date <= end; never more records than the input |
| Filtering.FilterAppend | app.py:46-47 | the filter distributes over concatenation, so kept records stay in their original order |
| Filtering.FilterKeepsBounds | app.py:46 | a record dated exactly at the start or exactly at the end of a non-empty range is kept |
| Filtering.FilterAllInWindow | app.py:46-47 | when every record lies in the range, the filter returns the whole sequence unchanged |
| Filtering.Earliest | app.py:40 | the default start is a date of the table and no later than any date of the table |
| Filtering.Latest | app.py:41 | the default end is a date of the table and no earlier than any date of the table |
| Filtering.DefaultWindow | app.py:40-43 | a default range exists exactly when the table is non-empty; its bounds are dates of the table, and every record lies inside it |
| Filtering.FilterDefaultKeepsAll | app.py:40-47 | filtering with the default range returns every record |
| Filtering.WindowOf | app.py:45-46 | a selection is a range exactly when it has two dates, the first as start and the second as end |
| Text.DigitsValue | app.py:63 | the zero-padded digit string of width w spells, read as a decimal number, the last w digits of the number |
| Text.DigitsOrder | app.py:63 | fixed-width zero-padded digit strings compare as strings the way the numbers compare, and are equal exactly when the numbers are |
| Monthly.MonthLabel | app.py:63 | the label has seven characters, digits except a dash at index 4; its first four digits spell the year and its last two the month |
| Monthly.MonthLabelOrder | app.py:63-64 | for valid dates, label string order is chronological month order, and two dates share a label exactly when they share year and month |
| Monthly.InMonth | app.py:64 | the records of a month are exactly the input records carrying that month's label |
| Monthly.AddTo | app.py:64 | adding one record's hours keeps the groups ascending, adds its label to the label set, adds its hours to the grand total and to its own label's total only |
| Monthly.Aggregate | app.py:62-64 | the groups are in strictly ascending label order; their labels are exactly the months present; the grand total equals the sum over all records; each label's total is the sum over that month's records |
| Monthly.AggregateAddsRecord | app.py:64 | one more record adds its month to the labels, its hours to the grand total and to its own month's total, and leaves every other month's total unchanged |
| Monthly.OneGroupPerMonth | app.py:64 | there are exactly as many groups as distinct months among the records |
| Monthly.MonthTotalsAreMonthSums | app.py:64 | each group's running and downtime hours are the sums over the records of its month |
| Monthly.AggregateChronological | app.py:63-64 | an earlier group holds an earlier month than any later group |
| Dashboard.Render | app.py:35-79 | a load error is shown as that error; a selection without exactly two dates shows the prompt; otherwise the daily chart is exactly the inclusive range filter of the loaded records, all consistent, and the monthly chart is their aggregate: ascending, one group per month present, each month's total the sum of its records, adding up to the daily sums |
| Dashboard.DefaultSelection | app.py:40-43 | for a non-empty table the initial selection is two dates of the table, the first no later and the second no earlier than every record; for an empty table it is empty |
| Dashboard.DefaultSelectionShowsAll | app.py:40-47 | with the initial selection the charts cover every loaded record and their monthly totals |
| Dashboard.OneDateShowsPrompt | app.py:75-76 | a selection of one date shows the prompt, not charts |
| Dashboard.ThreeColumnsFail | app.py:18 | a three-column table is reported as a ColumnCount error, not drawn, whatever the selection |
| Dashboard.BlankDayNamesFail | app.py:26 | a table whose only day cell is blank is reported as a DayNamesNotText error, whatever the selection |
| Dashboard.ChartMonthsChronological | app.py:63-64 | the groups of a drawn monthly chart are in chronological order of their months |
| WorkedExample.ExampleDayNames | app.py:26 | "Samedi" and "Dimanche" are weekend names and "Vendredi" is not |
| WorkedExample.ExampleMonthLabel | app.py:63 | any day of March 2024 is labelled "2024-03" |
| WorkedExample.ExampleCleaning | app.py:26-31 | Friday, Saturday and Sunday with 8 hours and downtime 2, 5 and 0 clean to downtime 2, 0, 0 and running 6, 8, 8 |
| WorkedExample.ExampleMonthlyTotals | app.py:62-64 | those three records total 22 running hours and 2 hours of downtime in the single group "2024-03" |
| WorkedExample.MarchWeekendExample | app.py:21-64 | from the raw rows, the monthly chart is the single group "2024-03" with 22 running and 2 downtime hours |

## Left out

- The page setup, sidebar, columns, expander, titles and messages (`app.py:6-9`, 39, 43, 50-53, 59-60, 72-74, 76, 79) are UI. The model keeps only which of charts, prompt or error is shown.
- The line and bar charts and their colours (`app.py:54-57`, 66-70) belong to the charting library. The model produces the data they are drawn from.
- The repository's second copy of this flow, which reads an uploaded spreadsheet instead of the fixed file, is not part of this model.
- Reading the CSV file (`app.py:14-15`) is I/O. A missing or unreadable file is therefore not modelled as an error case.
- Date parsing (`app.py:22`) is library code. Dates arrive already parsed or marked unparseable, and they carry no time of day, so the comparison with a selected day at midnight is a comparison of days.
- The `@st.cache_data` memoisation (`app.py:11`) is framework plumbing. `Load` is a pure function, so caching cannot change its result.
- Hours are typed as exact reals, so two behaviours of the hour columns are not modelled. Text in an hours cell makes the subtraction at `app.py:31` raise. Blank hours give NaN, and NaN comparisons such as `NaN > 0` at `app.py:31` are also left out.
- The blanket `try/except` (`app.py:35`, 78-79) is reduced to the three errors the cleaning code raises on the modelled inputs: the column-count mismatch, the date-parse failure and a day column without text.
- Text.Lower: lower-cases ASCII letters only. This is weaker than Python's Unicode `str.lower`. For the question actually asked, whether the result equals "samedi" or "dimanche", no other character lower-cases to a single ASCII letter of those words.
- Dashboard.DefaultSelection: for an empty table the model offers no dates, so a run shows the prompt. The source takes the minimum and maximum of an empty column, and what the date widget then does is outside the model.
