# Patient-data cleaning script, modelled in Dafny

The script `data_cleaning.py` reads a table of patient records and cleans
it in four steps:

1. It renames the headers `PID` to `patient_id` and `DOB` to
   `date_of_birth`. It then lower-cases every header and turns each space
   into an underscore.
2. It lower-cases every value of the `gender` column.
3. It builds a `full_name` column as `first_name + ' ' + last_name`, row by
   row.
4. It rewrites each `date_of_birth` value as
   `s[5:7] + '/' + s[8:10] + '/' + s[0:4]`. This turns `yyyy-mm-dd` into
   `mm/dd/yyyy`.

The model treats a pandas Series of strings as a `seq<string>`. A table
(`Frames.Frame`) is a list of headers, one column per header, and a row
count. All steps are pure functions. Python's clamped slicing is
`Text.Slice`, so the date rewrite is total: short text gives a shorter
result instead of an error.

Column lookup follows pandas:

- `df[name]` fails when no column has that label.
- When several columns share the label, it yields a table, and the script's
  next use of it (`.str`, or indexing a row) fails.
- The loops take their length from `first_name` and `date_of_birth` before
  reading any row. With zero rows, only those two labels need to exist.
- Assigning `df[name] = values` replaces every column labelled `name`, or
  adds a new column at the end.

Files:

- `text.dfy`: ASCII lower-casing, one-character replace, slicing, and first
  occurrence.
- `series.dfy`: the `.str` accessor applied to a whole column.
- `headers.dfy`: header normalisation.
- `fields.dfy`: full names and the date rewrite.
- `frames.dfy`: the table, column lookup and column assignment.
- `cleaning.dfy`: the four steps as one pipeline.

## Model

| member | source | states |
|---|---|---|
| Text.Lower | data_cleaning.py:23 | `str.lower` keeps the length; each capital becomes the small letter at the same alphabet position; every other character is unchanged; no capital is left |
| Text.LowerUnique | data_cleaning.py:23 | any text related to the input by the lower-casing relation equals `Lower` of it, so the relation fully specifies lower-casing |
| Text.LowerIdempotent | data_cleaning.py:28 | lower-casing twice is the same as lower-casing once |
| Text.ReplaceChar | data_cleaning.py:24 | `replace(' ', '_')` keeps the length; every space becomes `_`; every other character stays; no space is left |
| Text.Slice | data_cleaning.py:37-38 | Python `s[i:j]` with both bounds clamped: its length is the clamped length; character k is `s[i+k]`; it equals `s[i..j]` when the bounds fit; it never fails |
| Series.StrLower | data_cleaning.py:28 | `.str.lower()` keeps the number of values and their order; each value is lower-cased and keeps non-letters |
| Series.StrReplace | data_cleaning.py:24 | `.str.replace(' ', '_')` keeps the number of values; each value has every space replaced and none left |
| Series.StrLowerIdempotent | data_cleaning.py:28 | lower-casing the gender column a second time changes nothing |
| Headers.Rename | data_cleaning.py:19 | one label changes exactly when it is `PID` or `DOB`, which become `patient_id` and `date_of_birth`; every other label is kept |
| Headers.RenameAll | data_cleaning.py:19 | the rename keeps the header count and order; header i is the renamed input header i |
| Headers.NormalizeHeader | data_cleaning.py:19-24 | one header's normal form keeps the renamed header's length and has no space and no capital |
| Headers.RenameExact | data_cleaning.py:19 | a header changes under the rename exactly when it is `PID` or `DOB`; they become `patient_id` and `date_of_birth`; `pid` and `dob` are not renamed |
| Headers.NormalizeHeaders | data_cleaning.py:19-24 | the rename, lower-case and replace steps keep the header count and order; header i is the per-header normal form of input header i; no header has a space or a capital |
| Headers.NormalizeHeaderShape | data_cleaning.py:23-24 | after the rename, lower-casing and the replace keep the header's length; a space becomes `_`; any other character is lower-cased |
| Headers.NormalizeHeaderIdempotent | data_cleaning.py:19-24 | normalising an already normalised header changes nothing |
| Headers.NormalizeHeadersIdempotent | data_cleaning.py:19-24 | running the whole header step twice gives the same headers as running it once |
| Headers.RenameExamples | data_cleaning.py:19 | `PID` gives `patient_id`; `DOB` gives `date_of_birth`; `pid` stays `pid` |
| Headers.SpacedHeaderExample | data_cleaning.py:23-24 | `Full Name` gives `full_name` |
| Fields.FullName | data_cleaning.py:31 | the full name is `|first| + 1 + |last|` long: the first name, then one space, then the last name |
| Fields.FullNameSplits | data_cleaning.py:31 | partitioning a full name at its first space recovers both parts, when the first name has no space |
| Fields.FullNames | data_cleaning.py:31-33 | the comprehension gives exactly one full name per row; row i is `first[i] + " " + last[i]`, of length `|first[i]| + 1 + |last[i]|` |
| Fields.FullNameExample | data_cleaning.py:31 | `Jane` and `Doe` give `Jane Doe` |
| Fields.ReformatDate | data_cleaning.py:37-38 | the rewrite never fails; the result is 2 to 10 characters long, and its length is 2 plus the three clamped slice lengths; from 7 input characters on, `/` is at position 2; from 10 on, the result is 10 long with `/` at 5, and positions 0-1, 3-4 and 6-9 hold input positions 5-6, 8-9 and 0-3 |
| Fields.ReformatDateIgnoresTail | data_cleaning.py:37-38 | characters from position 10 on have no effect on the result |
| Fields.ReformatDateIgnoresSeparators | data_cleaning.py:37-38 | the characters at positions 4 and 7 have no effect on the result, because the input is never validated |
| Fields.ReformatIsoDate | data_cleaning.py:35-38 | `yyyy-mm-dd` built from a 4-character year and 2-character month and day becomes `mm/dd/yyyy` from the same parts |
| Fields.ReformatDateRoundTrip | data_cleaning.py:37-38 | on 10-character text with `-` at positions 4 and 7, reading the result back as `yyyy-mm-dd` gives the input |
| Fields.ReformatDateExamples | data_cleaning.py:37-38 | `1985-03-07` becomes `03/07/1985`; rewriting that again gives `/1/85/03/0`, so the rewrite is not idempotent |
| Fields.ReformatDateColumn | data_cleaning.py:36-38 | the row loop keeps the number of rows; each row ends up as the rewrite of its own original value |
| Fields.ReformatDates | data_cleaning.py:36-38 | the rewritten column keeps the row count; row i is the rewrite of input row i, 2 to 10 characters long, and 10 long with `/` at 2 and 5 when the input has at least 10 characters; it is what the row loop `Fields.ReformatDateColumn` leaves (that method's `ensures out == ReformatDates(col)`) |
| Frames.GetColumn | data_cleaning.py:28 | `df[name]` as a column succeeds exactly when one header is `name` and returns that column; otherwise the error names the label and says missing exactly when the label is absent |
| Frames.SetColumn | data_cleaning.py:33 | `df[name] = values` puts the values in every column labelled `name`, or appends a new column when there is none; other columns and the row count are unchanged |
| Frames.WithHeaders | data_cleaning.py:23-24 | assigning `df.columns` replaces the labels and keeps the columns and the row count |
| Cleaning.NormalizeFrameHeaders | data_cleaning.py:19-24 | the header steps change only the labels; each becomes the normal form of the old one, with no space or capital; the columns and rows are unchanged |
| Cleaning.LowerGender | data_cleaning.py:28 | the gender step succeeds exactly when `gender` is unique, and otherwise reports it duplicated or missing; value by value, it lower-cases only that column |
| Cleaning.AddFullName | data_cleaning.py:31-33 | the full-name step needs `first_name`, plus unique name columns when there are rows; it replaces or appends `full_name`; row i is first name, a space, then last name; no other column changes |
| Cleaning.ReformatDob | data_cleaning.py:36-38 | the date loop needs `date_of_birth`, unique when there are rows; it rewrites each row of that column only; the headers, row count and other columns are unchanged |
| Cleaning.Clean | data_cleaning.py:19-38 | a successful run keeps the row count and gives a well-formed table |
| Cleaning.CleanSucceedsIff | data_cleaning.py:19-38 | the run succeeds exactly when the normalised headers have the needed labels; its headers are then the normalised ones, with `full_name` appended when absent |
| Cleaning.CleanKeepsOtherColumns | data_cleaning.py:19-38 | a column whose normalised label is not `gender`, `full_name` or `date_of_birth` comes out exactly as read |
| Cleaning.CleanLowersGender | data_cleaning.py:28 | every value of the cleaned `gender` column is the lower-cased input value of the same row |
| Cleaning.CleanReformatsDates | data_cleaning.py:36-38 | every value of the cleaned `date_of_birth` column is the rewrite of the input value of the same row |
| Cleaning.CleanBuildsFullNames | data_cleaning.py:31-33 | row i of the cleaned `full_name` column is row i of the input's `first_name`, a space, then row i of its `last_name` |

## Left out

- Reading the input file (data_cleaning.py:15) and writing the output file
  (data_cleaning.py:43, commented out). This is file I/O. The pipeline
  starts from a table that has already been read.
- Address splitting. The script has only a comment for it
  (data_cleaning.py:40) and no code.
- Text.Lower: maps only the ASCII capitals `A`-`Z`. Python's `str.lower`
  also maps non-ASCII capitals, and a few of them change length.
- Missing values. pandas `.str.lower()` turns NaN into NaN, and `+` on NaN
  fails. The model treats every cell as a string.
- Non-string cells, such as numbers that pandas parsed from the file.
- Row labels. The loops index rows by label. The model assumes pandas' default
  labels `0..n-1`, so a label is the row's position.
- The chained assignment `df['date_of_birth'][x] = ...` is modelled as
  changing the table in place. pandas 1.x does this. Under pandas'
  copy-on-write mode the table would not change.
- `str.replace(' ', '_')` may treat its pattern as a regular expression in
  older pandas. A single space matches only itself either way, so the model
  replaces the literal character.
