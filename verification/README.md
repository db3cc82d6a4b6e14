# Fraud-transaction transform, modelled in Dafny

This project models `transform_data`, the transform step of a small
extract-transform-load job over a table of card transactions. The function
takes the raw transaction table and runs nine column steps in a fixed order.
Any one of them can abort the whole batch:

1. rename the fraud flag `is_fraud` to `Target`;
2. convert `amt`, `merch_lat`, `merch_long`, `lat`, `long` to float;
3. remap `gender`: `M` becomes 0, `F` becomes 1;
4. convert `zip`, `gender`, `city_pop`, `unix_time`, `Target` to integer;
5. parse `trans_date_trans_time` with the format `%d/%m/%Y %H:%M`, where a
   value that does not parse becomes missing, and read `dob`;
6. split the parsed timestamp into `trans_date` and `trans_time`;
7. build `location` as `city + ", " + state`;
8. drop `trans_date_trans_time`, `_c0`, `city_pop`, `city`, `state`;
9. label-encode `job`, `cc_num`, `merchant`, `street`, `category` and
   `location` with a fresh encoder per column.

The model is purely functional. A table (`Tables.Table`) holds:

- a schema of distinct column names;
- for each name, a column with one cell per row;
- the number of rows.

This is pandas' own column-wise layout. Row `k` of the table is the `k`-th
cell of every column. Every row-level statement below is therefore made
per index. Row count and row order are kept because every step maps column
`c` to a column of the same length, index by index.

Each step is a function from a table to `Result<Table, Error>` in module
`Pipeline`. `Pipeline.Transform` composes the steps. The cell conversions
are in `Cells`:

- `astype` is `Coerce`;
- the gender `replace` is `RemapGender`;
- `to_datetime` is `ParseCell`;
- string `+` is `Concat`.

The other modules are:

- `Timestamps`: the timestamp parser, with the Gregorian calendar and the
  pandas timestamp range.
- `StampFormat`: the format `%d/%m/%Y %H:%M` described as a set of whole
  strings, and the proof that the parser accepts exactly those strings.
- `Numbers`: the number-literal readers.
- `Encoding`: the label encoder. A value's code is its rank among the
  column's distinct values in sorted order.
- `Properties`: the end-to-end properties, each stated in terms of the raw
  input table.

Files: `wrappers.dfy`, `text.dfy`, `numbers.dfy`, `timestamps.dfy`,
`stampformat.dfy`, `cells.dfy`, `encoding.dfy`, `tables.dfy`, `pipeline.dfy`, `properties.dfy`.

## Model

| member | source | states |
|---|---|---|
| Pipeline.Transform | frist_dag.py:14-56 | a successful transform returns a well-formed table with exactly as many rows as its input |
| Properties.TransformSucceedsIff | frist_dag.py:14-56 | the batch succeeds exactly when the table passes every step's checks; otherwise it aborts with no partial table (`dob` values are not checked, see "Left out") |
| Properties.OutputSchema | frist_dag.py:19-45 | output columns are the input's, with `is_fraud` renamed to `Target` in place, the date, time and location columns added and the five dropped columns removed; no other column comes or goes |
| Properties.TargetColumn | frist_dag.py:19-30 | every `Target` cell is the integer conversion of the same row's raw `is_fraud` cell |
| Properties.GenderColumn | frist_dag.py:26-30 | every gender cell is the integer conversion of the remapped raw cell; `M` rows hold 0 and `F` rows hold 1 |
| Properties.GenderCodes | frist_dag.py:26-30 | after remap and integer conversion, `M` becomes 0 and `F` becomes 1 in every row, and the column keeps its length |
| Properties.MissingGenderRejected | frist_dag.py:26-30 | one missing gender aborts the whole batch |
| Properties.UnmappedGenderRejected | frist_dag.py:26-30 | a gender other than `M`/`F` that is not an integer literal stays text after the remap, and the integer conversion then aborts the batch |
| Properties.BadAmountRejected | frist_dag.py:22-23 | one amount that is not a decimal number aborts the whole batch |
| Properties.BadCellFails | frist_dag.py:23 | one unconvertible cell makes the conversion of its whole column fail |
| Properties.FloatColumn | frist_dag.py:22-23 | each float column holds the float conversion of its raw cells, row by row |
| Properties.IntColumn | frist_dag.py:29-30 | each kept integer column holds the integer conversion of its raw cells |
| Properties.DateTimeColumns | frist_dag.py:33-38 | `trans_date` and `trans_time` hold the date and the time of the same row's parsed timestamp; a row whose timestamp does not parse gets missing parts in that row only |
| Properties.TimestampTextIrrelevant | frist_dag.py:33 | tables that differ only in their timestamp text are both accepted or both rejected: a bad timestamp never aborts the batch |
| Properties.AcceptsIgnoresTimestamp | frist_dag.py:33 | the acceptance condition does not depend on the timestamp column's cells |
| Properties.LocationCells | frist_dag.py:41 | the location exists exactly when every row's city and state can be joined; each row's location is city, `", "`, state, or missing when either part is missing |
| Properties.LocationEncodable | frist_dag.py:41-53 | a column of strings and missing values can always be encoded |
| Properties.LocationColumnCodes | frist_dag.py:41-53 | the output location column holds the label codes of the joined city and state, computed before city and state are dropped |
| Properties.LocationCodesMatch | frist_dag.py:41-53 | two rows get the same location code exactly when their city and state join to the same location |
| Properties.RawEncodedColumn | frist_dag.py:49-53 | `job`, `cc_num`, `merchant`, `street` and `category` hold the label codes of their raw cells |
| Properties.OutputReencodes | frist_dag.py:49-53 | encoding the result's six encoded columns again changes nothing |
| Properties.UntouchedColumn | frist_dag.py:16-56 | a column no step reads, writes or drops reaches the result unchanged |
| Properties.DobUnchanged | frist_dag.py:34 | `dob` must be present and reaches the result unchanged |
| Pipeline.TypeColumnsSpec | frist_dag.py:19-30 | steps 1 to 4 fail exactly on a rename clash, a missing column or an unconvertible cell; on success each converted column is the conversion of its raw cells and every other column is unchanged |
| Pipeline.DeriveColumnsSpec | frist_dag.py:33-45 | steps 5 to 8 fail exactly on a missing read or dropped column or an unjoinable location, never on a bad timestamp; on success the date, time and location columns are derived from the named inputs and the rest is unchanged |
| Pipeline.RenameTarget | frist_dag.py:19 | `is_fraud` becomes `Target` in the same position with the same cells; without `is_fraud` nothing changes; every other column is kept |
| Pipeline.CoerceColumns | frist_dag.py:22-23 | fails when a listed column is missing or holds an unconvertible cell; otherwise every listed column is converted cell by cell and the rest is untouched |
| Pipeline.RemapCells | frist_dag.py:26 | `M` becomes 0, `F` becomes 1, and every other cell stays as it was |
| Pipeline.RemapStep | frist_dag.py:26 | only the gender column changes; a missing gender column is an error |
| Pipeline.ParseStep | frist_dag.py:33-34 | the timestamp column is parsed cell by cell and never fails on a bad value; in the model the step fails only when the timestamp or `dob` column is missing, since `dob` values pass through unparsed |
| Pipeline.SplitStep | frist_dag.py:37-38 | the date and time columns hold, row by row, the parts of the timestamp column; they are appended to the schema |
| Pipeline.CityPrefix | frist_dag.py:41 | each city string gets the separator appended; a missing city stays missing; any other value is an error |
| Pipeline.LocationStep | frist_dag.py:41 | the location column is the cell-wise concatenation of city prefix and state; every other column is unchanged |
| Pipeline.DropStep | frist_dag.py:44-45 | fails when any of the five listed columns is missing; otherwise exactly those five columns disappear and the rest keep their order and cells |
| Pipeline.EncodeEach | frist_dag.py:49-53 | every listed column is replaced by its label codes; the step fails when a listed column is missing or cannot be sorted; the rest is untouched |
| Tables.Rename | frist_dag.py:19 | the renamed column keeps its position and cells; the old name is gone and nothing else changes |
| Tables.Drop | frist_dag.py:45 | a missing listed column is reported; otherwise the listed columns are removed, the others keep their order, and the row count is kept |
| Tables.SetColumn | frist_dag.py:41 | assigning a column replaces it in place or appends it; every other column is unchanged |
| Cells.Coerce | frist_dag.py:22-30 | float conversion yields a float or missing value and keeps missing values; integer conversion yields a 64-bit integer and rejects missing values |
| Cells.CoerceIdempotent | frist_dag.py:23 | converting an already converted cell changes nothing |
| Cells.CoerceNumeral | frist_dag.py:30 | the text of any 64-bit integer converts to that integer, and to the same number as a float |
| Cells.CoerceCells | frist_dag.py:23 | a column converts exactly when every cell does, cell by cell, in order |
| Cells.ParseCell | frist_dag.py:33 | never an error: a string becomes the timestamp it spells or missing, a date becomes its midnight or missing when out of range, a number becomes missing, a timestamp is kept when representable and missing otherwise; every timestamp it returns is valid |
| Cells.DatePart | frist_dag.py:37 | `.dt.date`: a timestamp gives a date and missing gives missing; the date of a valid timestamp is a calendar date |
| Cells.OutOfRangeStampIsMissing | frist_dag.py:33 | a timestamp cell in the year 1500 or in month 13 parses to missing, like the date cell of the same day |
| Cells.PartsRecombine | frist_dag.py:37-38 | the date part and the time part of a timestamp together give back that timestamp |
| Cells.TimePart | frist_dag.py:38 | `.dt.time`: a timestamp gives a time and missing gives missing; the time of a valid timestamp is a time of day with zero seconds |
| Cells.Concat | frist_dag.py:41 | missing plus anything is missing, two strings concatenate, any other pair is an error |
| Cells.ConcatCells | frist_dag.py:41 | two columns join exactly when every row's pair joins, row by row |
| Numbers.IntegerRoundTrip | frist_dag.py:30 | every integer's canonical text reads back as that integer |
| Numbers.DecimalExtendsInteger | frist_dag.py:23 | a literal the integer reader accepts is read by the float reader as the same number |
| Numbers.Trunc | frist_dag.py:30 | float-to-integer conversion rounds toward zero |
| Timestamps.DaysInMonth | frist_dag.py:33 | February has 29 days exactly in Gregorian leap years |
| Timestamps.ParseStamp | frist_dag.py:33 | every accepted string denotes a real calendar minute inside the pandas timestamp range |
| StampFormat.ParseStampSpelled | frist_dag.py:33 | a string is read as a timestamp exactly when it spells that timestamp in `%d/%m/%Y %H:%M` (day and month tokens, `/` separators, four year digits, a run of white space, hour and minute tokens, nothing left over) and the minute is a real, representable one; every other string yields no timestamp |
| Timestamps.RenderParses | frist_dag.py:33 | any day, month, year, hour and minute written zero-padded in the format parse back to themselves when they form a valid minute, and are rejected otherwise (such as 31 April or 29 February 2023) |
| Timestamps.ParseFormat | frist_dag.py:33 | every representable minute, written as `DD/MM/YYYY HH:MM`, parses back to itself |
| Timestamps.ExampleWellFormed | frist_dag.py:33 | `20/03/2024 14:30` parses as 2024-03-20 14:30 |
| Timestamps.ExampleBadDay | frist_dag.py:33 | `31/02/2024 14:30` yields no timestamp |
| Timestamps.ExampleBadHour | frist_dag.py:33 | `31/02/2024 99:99` yields no timestamp |
| Encoding.EncodeCells | frist_dag.py:53 | encoding succeeds exactly on sortable columns; codes are integers in `[0, k)` for `k` distinct values; equal values get equal codes and distinct values distinct codes; codes follow the sort order; every code in `[0, k)` is used |
| Encoding.Classes | frist_dag.py:53 | every sortable column has a `classes_` listing: its distinct values, each once, in strictly increasing order |
| Encoding.EncodeIsClassIndex | frist_dag.py:53 | each row's code is the index of its value in `classes_`, so `classes_[code]` gives the row's value back |
| Encoding.EncodedValues | frist_dag.py:53 | the encoded column's values are exactly the codes `0 .. k-1` |
| Encoding.EncodeIdempotent | frist_dag.py:53 | encoding an encoded column gives the same codes again |
| Encoding.RankInjective | frist_dag.py:53 | distinct values of a sortable column get distinct codes |
| Encoding.RankOnto | frist_dag.py:53 | every code below the number of distinct values is used |

## Left out

- `extract_data`, `load_data`, `send_email` and the DAG wiring are left out. They do file, database and mail I/O and task scheduling, and contain no transform logic.
- `dob` parsing (`pd.to_datetime` with an inferred format) is a pass-through: the model only requires the column to exist. The format pandas infers is library-defined and has no contract to state. That call runs with `errors='raise'`, so in pandas an unparseable `dob` aborts the batch. Such a value can be garbage text, a value inconsistent with the inferred format, or a date outside the nanosecond range. The model drops this error path. Its acceptance condition, and the "exactly" of `Properties.TransformSucceedsIff`, therefore ignore `dob` values.
- Properties.DobUnchanged: states that `dob` passes through unchanged, not pandas' conversion of it to datetimes, for the reason above.
- Floats are exact reals. IEEE-754 rounding, infinities and NaN values are left out. A missing float and pandas' NaN are the same `Null` cell.
- The number readers accept only an optional sign and ASCII digits, with an optional decimal point for floats. Surrounding white space, exponents, `inf`/`nan` literals, underscores and non-ASCII digits are not modelled.
- Booleans and other Python objects in cells are not modelled. A cell is missing, an integer, a float, a string, a date, a time or a timestamp.
- pandas' dtype inference and nullable dtypes are not modelled. Cells are converted as an object column converts them. The integer conversion rejects a missing value, as the NumPy `int64` cast does.
- Cells.Coerce: rejects a float outside the 64-bit range. On a `float64` column pandas rejects only non-finite values and casts out-of-range ones silently (NumPy gives the minimum `int64` on x86), so there the batch would go on.
- Pipeline.LocationStep: an all-missing `city` column read as `float64` makes `city + ', '` raise a TypeError in pandas. The model treats it as an object column and builds an all-missing location.
- Pipeline.RenameTarget: renaming `is_fraud` onto a table that already has a `Target` column is an error (`DuplicateColumn`) here. pandas would instead keep two columns named `Target`, which the later steps cannot treat as one column.
- Cells.ParseCell: follows pandas 2.x. A timestamp cell is kept when it lies in the nanosecond range and becomes missing otherwise, a date cell becomes its midnight, numbers become missing and strings are parsed. The strings `now` and `today`, which pandas reads from the clock before it tries the format, are not special: the model gives missing, because the clock is left out.
- Timestamps.ParseStamp: the format's `\d` matches only ASCII digits here. In a str pattern Python's `\d` matches every Unicode decimal digit, and pandas' strptime accepts those. White space follows Python's `\s` in full.
- The error payload names only the first missing column of a step. pandas lists all of them in its message.
- pandas' nanosecond timestamp range is modelled at minute precision: 1677-09-21 00:13 to 2262-04-11 23:47. Other timestamp resolutions are not modelled.
- Encoding.EncodeCells: LabelEncoder's sort order is modelled for one kind of value plus missing values: strings by code point, integers or floats by value, missing last. A string beside a number is an error, as sklearn's sort raises. The model also rejects two columns sklearn encodes. One mixes integers with floats, which Python sorts and where sklearn merges `1` with `1.0`. The other holds only dates, times or timestamps. When the input comes from `read_csv`, each encoded column gets a single dtype, so neither case arises there.
