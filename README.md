# UTM attribution pipeline — a Dafny model

The pipeline reads a sparse CRM export. Each row carries a contact and, optionally, one form
field (title and value) and one event. From this table it computes acquisition KPIs per UTM
source. This project models the three in-memory stages and proves what each stage promises.

- **Row cleaning** (`preprocess.dfy`, module `Preprocess`). A raw table is a `Frame` class whose
  methods copy it and then overwrite its columns one by one, as `clean_dataframe`,
  `parse_datetimes` and `drop_impossible_dates` do. Each method is proved against a function that
  gives the new columns. Idempotence, the kept boundaries of the date window and the untouched
  columns are lemmas about those functions.
- **Entity extraction and the per-user rollup** (`modeling.dfy`, module `Modeling`).
  - `build_contacts`, `extract_utm` and `build_events` are functions over typed rows, built from
    the table operations in `tables.dfy`: projection, first-occurrence deduplication, lookup, left
    merge and counting.
  - `rollup_users` is a method. It classifies the events, then groups them per contact in one
    loop over a map of accumulators. A second loop fills one users row per contact.
  - Both loops are proved against set-based reference definitions of the four per-contact
    statistics.
- **Per-source metrics** (`metrics.dfy`, module `Metrics`).
  - `metrics_per_utm` and `event_category_mix` are functions.
  - Proved: one row per source or pair; volumes that add up to the number of contacts; rates in
    [0, 1]; shares that add up to 1 within each source; the ordering by volume.
- `text.dfy` (module `Strings`) models Python's `str.strip()` and `str.lower()`.
- `common.dfy` (module `Common`) holds `Option`, the time unit and the calendar day.

Timestamps are integers counting nanoseconds since the Unix epoch, as pandas stores them. The
calendar day of an instant is `Day(t) = t / 86_400_000_000_000`. Rates, means and shares are exact
`real` quotients.

Two behaviours of the code that are easy to misread:

- The date guard keeps 2100-01-01 itself, because it clears only instants strictly after it
  (src/preprocess.py:33, `GuardBoundaries`).
- Sources of equal volume come out in no promised order, because the sort uses
  `acquisition_volume` alone (src/metrics.py:24, `SortByVolume`).

## Model

| member | source | states |
|---|---|---|
| Strings.Trim | src/preprocess.py:14 | the stripped string begins and ends with a non-whitespace character (or is empty) |
| Strings.TrimInside | src/preprocess.py:14 | the stripped string is a contiguous piece of the input with only whitespace before and after it |
| Strings.TrimSplit | src/preprocess.py:14 | whitespace, then a stripped core, then whitespace, strips to exactly that core |
| Strings.TrimIdempotent | src/preprocess.py:14 | stripping twice is stripping once |
| Strings.LowerChar | src/modeling.py:35 | an ASCII capital becomes its small letter, every other character is kept, and whitespace stays whitespace |
| Strings.Lower | src/modeling.py:35 | lower-casing keeps the length and lower-cases each character in place, leaving no upper-case letter |
| Strings.LowerTrimCommute | src/modeling.py:35 | stripping then lower-casing gives the same string as lower-casing then stripping |
| Strings.LowerKeepsTrimmed | src/modeling.py:35 | strip then lower leaves no surrounding whitespace |
| Preprocess.Frame.Copy | src/preprocess.py:10 | `df.copy()`: a fresh frame with the same names, columns and row count |
| Preprocess.CleanCell | src/preprocess.py:14-15 | a text cell becomes missing exactly when it is missing or its stripped text is "", "nan" or "None"; otherwise it is the stripped text |
| Preprocess.CleanColumn | src/preprocess.py:13-15 | text columns are cleaned cell by cell; every other column is returned unchanged; the height is kept |
| Preprocess.TrimNames | src/preprocess.py:11 | every column name is replaced by its stripped form, position by position |
| Preprocess.CleanDataframe | src/preprocess.py:3-16 | for names that stay distinct once stripped: the input frame is unchanged; the new frame has the stripped names, each column cleaned by `CleanColumn`, and the same row count |
| Preprocess.CleanColumnIdempotent | src/preprocess.py:14-15 | cleaning a cleaned column changes nothing |
| Preprocess.CleanIdempotent | src/preprocess.py:3-16 | `clean_dataframe` applied twice gives the same names and columns as once |
| Preprocess.ParseColumn | src/preprocess.py:22 | the parsed column holds timestamps and keeps the height; a timestamp column is kept; a missing text cell stays missing |
| Preprocess.ParseColumns | src/preprocess.py:20-22 | exactly the three date columns are parsed; every other column is unchanged |
| Preprocess.ParseDatetimes | src/preprocess.py:18-23 | the input frame is unchanged; the new frame has the same names and row count and the columns `ParseColumns` gives |
| Preprocess.ParsedDatesComparable | src/preprocess.py:22 | after parsing, every date column can be compared with a timestamp, so the date guard can run |
| Preprocess.GuardCell | src/preprocess.py:33-34 | an instant is cleared exactly when it is present and before 2000-01-01 or after 2100-01-01; otherwise it is kept |
| Preprocess.GuardColumn | src/preprocess.py:33-34 | a timestamp column is guarded cell by cell; any other column is unchanged |
| Preprocess.GuardColumns | src/preprocess.py:31-34 | only the three date columns are guarded; every other column is unchanged |
| Preprocess.DropImpossibleDates | src/preprocess.py:25-35 | the input frame is unchanged; the new frame has the same names and row count and the columns `GuardColumns` gives |
| Preprocess.GuardBoundaries | src/preprocess.py:30-33 | both instants 2000-01-01 and 2100-01-01 are kept; one nanosecond outside the window is cleared; missing stays missing |
| Preprocess.GuardIdempotent | src/preprocess.py:33-34 | guarding guarded columns changes nothing |
| Preprocess.GuardedDatesInWindow | src/preprocess.py:30-34 | after the guard, every present instant of a date column lies within the window, both ends included |
| Tables.DedupBy | src/modeling.py:10 | `drop_duplicates(subset=[key])`: the result has each key of the input exactly once, each row is the first row of its key, and rows keep the order of those first rows |
| Tables.DedupFind | src/modeling.py:29 | a lookup after deduplication finds the same row as before it |
| Tables.Matches | src/modeling.py:61 | the right rows a key matches: as many payloads as right rows carry the key, none exactly when no right row has it, and each the payload of a right row with that key |
| Tables.JoinRows | src/modeling.py:61 | the merged rows of one left row: one per right row of its key, each carrying that right row's payload, or a single row with a missing payload when no right row has the key |
| Tables.LeftJoin | src/modeling.py:61 | `merge(how="left")`: as many rows as the left rows' matches summed, with one for a left row that matches nothing, so never fewer rows than the left table; every row is a left row with the payload of a right row of its key, or with a missing payload exactly when no right row has that key |
| Tables.LeftJoinRow | src/modeling.py:61 | one left row whose key is repeated on the right becomes one merged row per right row of that key, in right order: the merge multiplies rows on repeated keys |
| Tables.LeftJoinUnique | src/modeling.py:61 | a left merge against a table with unique keys gives one row per left row, in order, with the matching payload or a missing one |
| Tables.SumCountsPartition | src/metrics.py:40 | summing the group sizes over the distinct groups counts every selected row exactly once |
| Modeling.BuildContacts | src/modeling.py:4-16 | one contact per Contact ID of the input and no other; each is built from the first row with that ID, dates included; contacts keep the order of those first rows |
| Modeling.Normalize | src/modeling.py:35 | a normalised source has no surrounding whitespace and no upper-case letter |
| Modeling.NormalizeSplit | src/modeling.py:34-35 | a label with whitespace around a stripped core normalises to the lower-cased core, so labels that differ only in surrounding whitespace become one |
| Modeling.NormalizeCaseBlind | src/modeling.py:34-35 | two labels that agree position by position up to letter case normalise to the same label |
| Modeling.ExtractUtm | src/modeling.py:20-36 | at most one UTM row per contact; every source is stripped and lower-cased |
| Modeling.UtmCandidates | src/modeling.py:23-26 | the title filter and `dropna()`: every candidate is the contact and value of a row titled "utm_source" that has a value, and there are no more candidates than rows |
| Modeling.FindUtmCandidates | src/modeling.py:23-26 | the first candidate of a contact carries the value of that contact's first "utm_source" row that has one, as the independent reading `FirstUtmValue` gives it, and there is none when it has no such row |
| Modeling.FirstUtmValue | src/modeling.py:23-29 | reference reading: missing exactly when the contact has no row titled "utm_source" with a value; otherwise the value of the first such row |
| Modeling.ExtractUtmFirst | src/modeling.py:23-35 | the UTM table holds, for each contact, the normalised value of its first "utm_source" row that has a value, and nothing for a contact without one |
| Modeling.BuildEvents | src/modeling.py:40-55 | there are as many events as rows with an Events ID, and an event is in the result exactly when it comes from such a row |
| Modeling.BuildEventsAppend | src/modeling.py:43-45 | event extraction is row by row: the events of concatenated tables are the concatenation of their events, so input order is kept |
| Modeling.AfterAcq | src/modeling.py:70 | `>=` on instants where a missing instant compares false: true only when both instants are present, and then exactly when the event's is not earlier than the contact's |
| Modeling.JoinUtm | src/modeling.py:61-64 | the contact/UTM merge: as many rows as the merge yields, each a contact with the source of a UTM row of that contact, or "unknown" exactly when the UTM table has no row for it |
| Modeling.Enrich | src/modeling.py:67-70 | the event/contact merge: as many rows as the merge yields, each an input event with the creation instant of a contact row of its Contact ID (missing when there is none), flagged exactly when `AfterAcq` holds of the two instants |
| Modeling.JoinUtmOneToOne | src/modeling.py:61-64 | with a deduplicated UTM table, each contact gets exactly one users row, in contact order, with its UTM source or "unknown" |
| Modeling.EnrichOneToOne | src/modeling.py:67-70 | with deduplicated contacts, each event appears once, in order, with its contact's creation instant; it is after acquisition exactly when both instants are present and the event's is not earlier |
| Modeling.SameInstantIsAfter | src/modeling.py:70 | an event at its contact's creation instant is after acquisition; a missing instant on either side is not |
| Modeling.MinTime | src/modeling.py:78 | the minimum that skips missing instants: missing only when both are, and never above a present argument |
| Modeling.FirstEventAt | src/modeling.py:78 | `first_event_at`: missing exactly when the contact has no present event instant; otherwise one of its instants and no later than any of them |
| Modeling.StatsSnoc | src/modeling.py:73-82 | one more event row changes its own contact's statistics by one accumulation step and no other contact's |
| Modeling.StatsAbsent | src/modeling.py:88-90 | a contact with no event rows has zero counts and no first event |
| Modeling.StatsShape | src/modeling.py:74-80 | for the group-by reducers `Stats` (distinct event ids, rows after acquisition, earliest instant, distinct days of a contact's rows): a contact has event ids exactly when it has event rows, no after-acquisition row and no day without them, and a missing first instant exactly when it has no day |
| Modeling.Finish | src/modeling.py:93-94 | `engaged` holds exactly when events after acquisition reach 1; `retained` holds exactly when distinct event days reach 2 |
| Modeling.Users | src/modeling.py:85-94 | the users table: one row per merged contact row, keeping its contact and source; the flags are the thresholds on the counts; a contact without event rows has zero counts, no days and neither flag, as the zero fill gives |
| Modeling.GroupEvents | src/modeling.py:73-82 | the group-by loop: the map's keys are exactly the contacts with event rows, and each entry equals that contact's statistics: distinct event ids, rows after acquisition, first instant, distinct days |
| Modeling.FillUsers | src/modeling.py:85-94 | the merge-and-fill loop gives exactly the users table `Users`, with zero statistics for contacts without events |
| Modeling.RollupUsers | src/modeling.py:59-97 | returns the classified events and the users table: one row per merged contact with its statistics and flags |
| Modeling.NoEventsNoFlags | src/modeling.py:88-94 | a contact without events has all counts zero, no first event, and is neither engaged nor retained |
| Modeling.EngagedIff | src/modeling.py:77-93 | a contact is engaged exactly when one of its event rows is after acquisition |
| Modeling.RetainedIff | src/modeling.py:79-94 | a contact is retained exactly when two of its present event instants fall on different calendar days |
| Modeling.AfterCanExceedTotal | src/modeling.py:67-77 | two rows of one event id, dated at their contact's creation instant and classified through the merge with that contact, give `events_after_acq` = 2 but `total_events` = 1 |
| Metrics.Group | src/metrics.py:7 | a source's group has as many users as the table has rows of that source, and is empty exactly when the source does not occur |
| Metrics.GroupUnique | src/metrics.py:7-9 | a group of a table without repeated contacts has no repeated contact either |
| Metrics.FlagCount | src/metrics.py:10-11 | the sum of a boolean column is the number of users with the flag set, so it never exceeds the group size |
| Metrics.GroupFlags | src/metrics.py:7-11 | the flag count over a source's group is the number of users of that source with the flag set |
| Metrics.MeanEvents | src/metrics.py:12-13 | the mean times the group size is the sum of `total_events`; the mean is never negative; it is 0.0 for an empty group |
| Metrics.Ratio | src/metrics.py:18-21 | a quotient over a positive denominator: never negative, zero exactly when the numerator is, at most 1 exactly when the numerator is at most the denominator |
| Metrics.RatioScaled | src/metrics.py:18-21 | the quotient times the denominator gives back the numerator |
| Metrics.MetricsOf | src/metrics.py:9-21 | the aggregate row of a present source is that source's row, and its volume is between 1 and the number of its users |
| Metrics.MetricsScaled | src/metrics.py:12-21 | the row scales back: the average times the group size is the sum of `total_events`, and each rate times the volume is the engaged or retained count |
| Metrics.Aggregated | src/metrics.py:6-15 | the group-by gives one row per source of the users table and no other, each that source's aggregate |
| Metrics.SortByVolume | src/metrics.py:24 | the result is a permutation of its input with non-increasing `acquisition_volume` |
| Metrics.MetricsPerUtm | src/metrics.py:5-24 | one row per source of the users table and no other, each that source's aggregate, ordered by non-increasing volume |
| Metrics.RatesBounded | src/metrics.py:9-21 | with one users row per contact, the volume is the number of the source's users; `engaged_users` and `retention_users` are the numbers of its users with the flag set and do not exceed the volume; both rates lie in [0, 1] |
| Metrics.VolumesSumToContacts | src/metrics.py:9 | with one users row per contact, the volumes of all sources add up to the number of contacts |
| Metrics.Attributed | src/metrics.py:30-31 | the event/UTM merge: as many rows as the merge yields, each a classified event with the source of a UTM row of its contact, or "unknown" exactly when the UTM table has no row for it |
| Metrics.AttributedOneToOne | src/metrics.py:30-31 | with a deduplicated UTM table, each classified event appears once, in order, with its contact's source or "unknown" |
| Metrics.Counted | src/metrics.py:34-35 | the group keys of the rows that reach the group-by: one per row that is after acquisition and has a category, and each the key of at least one such row |
| Metrics.UsersPerContact | src/modeling.py:61-64 | against a deduplicated UTM table the users table has one row per contact and covers every contact |
| Metrics.CountedPairs | src/metrics.py:34-37 | the number of times a (source, category) key appears among the counted events is the number of qualifying rows with that key |
| Metrics.CountedSources | src/metrics.py:34-40 | the number of counted events of a source is its number of qualifying rows |
| Metrics.MixRowOf | src/metrics.py:37-46 | a mix row carries its pair; its events count lies between 1 and its source's total; its share lies in (0, 1] |
| Metrics.CategoryMix | src/metrics.py:28-49 | one row per (source, category) pair of a row after acquisition with a category, and no other; each row holds the pair's row count, the source's row count, and their quotient |
| Metrics.SharesSumToOne | src/metrics.py:40-46 | within every source of the mix, the events add up to the source's total and the shares add up to exactly 1 |
| Metrics.VolumesCoverContacts | src/modeling.py:4-97 | end to end, from one cleaned table: the users table has exactly one row per Contact ID, and the acquisition volumes add up to the number of distinct Contact IDs |

## Left out

- Reading and writing files, creating directories, charts, the DuckDB export and the entry point
  (`src/report.py`, `src/duckdb_utils.py`, `src/visuals.py`, `main.py`) are I/O and are not part
  of this model.
- `pd.to_datetime` is a foreign free-text parser. `ParseDatetimes` takes it as a parameter
  `parse: string -> Option<Time>`, where `None` is a cell that cannot be read. An integer column
  is read as nanosecond instants. The parameter works cell by cell. `pd.to_datetime` parses the
  whole column and infers one format from its values, so one cell's result can depend on the
  other cells; the model does not capture that.
- Preprocess.ParseColumn: states only the shape of its result (a timestamp column of the same
  height, missing cells kept missing), because the parser is a parameter.
- `round(3)` and the float `np.mean` are left out. Rates, means and shares are exact `real`
  quotients, so the stated bounds hold before rounding.
- Pandas dtype inspection is replaced by a typed column (`Text`, `Numbers`, `Stamps`). Dynamic
  column lookup (`users.get`, `if c in users.columns`) is replaced by fixed record fields. The
  step from cleaned frame to typed rows (`RawRow`) is not modelled.
- Preprocess.CleanDataframe: requires that no two column names strip to the same name. With such
  names, `df[col]` selects several columns, which have no single `dtype`, and the source raises an
  AttributeError. That error path is not modelled.
- Preprocess.ParseDatetimes and Preprocess.DropImpossibleDates treat each column by its own name.
  Pandas' behaviour when two columns share a date column's name (a sub-frame instead of one
  column) is not modelled.
- Preprocess.DropImpossibleDates: requires every present date column to be comparable with a
  timestamp. Pandas raises a TypeError otherwise, and the exception path is not modelled.
- Strings.Lower: handles the ASCII letters only; `str.lower()` on other Unicode letters is not
  modelled.
- A missing Contact ID is not modelled: every row carries one. The NaN-key behaviour of
  `drop_duplicates`, `merge` and `groupby` on a missing ID is therefore left out. A missing event
  category drops the row from the mix, as the default group-by does.
- Metrics.CategoryMix: promises no row order. Pandas sorts the group keys; the model lists pairs
  in order of first appearance.
- Metrics.SortByVolume: promises no order among sources of equal volume. The source's sort does
  not promise one either.
- The one-row-per-contact results (`JoinUtmOneToOne`, `EnrichOneToOne`, `RatesBounded`,
  `VolumesSumToContacts`) assume unique keys on the right-hand table. `BuildContacts` and
  `ExtractUtm` provide this, and `VolumesCoverContacts` puts them together. With repeated keys, a
  left merge multiplies rows: `LeftJoin` gives one row per matching right row and `LeftJoinRow`
  states it for a single left row.
