# Rental price dashboard: feature-row builder

This models the part of the rental-price dashboard that shapes data: it
builds the one-row feature frame that goes to the pre-trained price model.
The model's stored feature-name list (the *schema*) fixes the row's columns
and their order. The builder:

- reads the city and locality drop-down domains out of the schema. For every
  column that starts with `city_` (or `locality_`) it takes the second piece
  of `col.split('_')`;
- encodes the furnishing label as an ordinal through a fixed table:
  `Unfurnished` is 0, `Semi-Furnished` is 1, `Furnished` is 2;
- makes a row with a zero for every schema column and writes the six scalar
  fields (`area`, `beds`, `bathrooms`, `balconies`, `furnishing`,
  `area_rate`) by name;
- sets the indicator `city_<selected>` and the indicator
  `locality_<selected>` to 1, but only where that column exists. An unknown
  category leaves its whole group at 0 and raises no error.

Layout:

- `text.dfy` (module `Text`) models Python's `str.split` on one separator
  character. It has `Split`, its inverse `Join` and `TakeUntil`, and proves
  the round trip in both directions.
- `schema.dfy` (module `Schema`) has column lookup by name (`IndexOf`, a
  linear search), the category of a prefixed column (`Category`) and the
  domain comprehension (`ExtractDomain`).
- `furnishing.dfy` (module `Furnishing`) has the furnishing table and its
  inverse.
- `input_row.dfy` (module `InputRow`) has the input form (`RawFields`) and a
  declarative description of the finished row (`Cell`, `Row`). It also has
  the frame that is updated in place (class `InputFrame`, whose `values`
  array is written cell by cell), the six scalar writes (`WriteScalars`) and
  the builder `BuildRow`, which is proved to produce `Row`. What the
  finished row promises is proved as lemmas about `Row`.

Every value is an integer, because the numeric widgets take integer bounds
and defaults. The selected city and locality are arbitrary strings. That
covers the case of an empty domain, where the drop-down returns `None` and
the candidate column becomes `city_None`.

## Model

| member | source | states |
|---|---|---|
| Text.TakeUntil | app.py:43 | the result is the longest prefix of the input that does not contain the separator: it is a prefix, it has no separator, and it is the whole input or is followed by a separator |
| Text.TakeUntilFirst | app.py:43 | when position `k` holds the first separator, the text before the first separator is exactly the first `k` characters |
| Text.Split | app.py:43 | `str.split(sep)` gives at least one piece, no piece contains the separator, and the first piece is the text before the first separator |
| Text.JoinSplit | app.py:43 | joining the pieces of a split with the separator gives back the original string |
| Text.SplitJoin | app.py:43 | splitting the join of separator-free pieces gives back exactly those pieces |
| Text.SplitAfterPiece | app.py:43 | a separator-free piece followed by the separator becomes the first piece, and the remainder splits on its own |
| Schema.IndexOf | app.py:53-58 | looking up an existing column label finds a position holding that label, with no earlier occurrence |
| Schema.IndexOfUnique | app.py:53-58 | in a schema without duplicates, the lookup of a column's name returns that column's own position |
| Schema.PrefixedSplit | app.py:43-44 | a column that starts with `city_` or `locality_` splits into at least two pieces, so `split('_')[1]` always exists, and that piece is the text after the prefix up to the next `_` |
| Schema.Category | app.py:43-44 | `col.split('_')[1]` is the text after the group prefix up to the next `_`; it is a prefix of the remainder and has no `_` |
| Schema.ExtractDomain | app.py:43-44 | the domain has at most one entry per schema column and no entry contains `_` |
| Schema.ExtractDomainAppend | app.py:43-44 | extraction goes column by column: the domain of a concatenated schema is the concatenation of the domains, so entries keep schema order |
| Schema.ExtractDomainComplete | app.py:43-44 | every column of the group contributes its category to the domain |
| Schema.ExtractDomainSound | app.py:43-44 | every entry of the domain is the category of some column of the group |
| Schema.ExtractDomainEmpty | app.py:43-44 | a schema with no column of the group gives an empty domain |
| Schema.CategoryExact | app.py:43 | for `prefix + x` where `x` has no `_`, the category is `x`, and prefixing it again rebuilds the column name |
| Schema.CategoryTruncated | app.py:43 | for `prefix + x` where `x` contains `_`, the category is strictly shorter than `x`, and prefixing it again does not rebuild the column name |
| Furnishing.Ordinal | app.py:40-41 | the ordinal of a known label is its position among the drop-down's options `Unfurnished`, `Semi-Furnished`, `Furnished` |
| Furnishing.Label | app.py:40-41 | every ordinal 0..2 is the ordinal of exactly the label at that position |
| Furnishing.LabelsAreOptions | app.py:40-41 | the table accepts exactly the drop-down's three labels; every other label fails the lookup |
| Furnishing.OrdinalInjective | app.py:41 | different labels never share an ordinal |
| Furnishing.LabelOrdinal | app.py:41 | decoding a label's ordinal gives back the label |
| InputRow.GroupsApart | app.py:53-65 | a `city_` or `locality_` column is never one of the six scalar columns and never belongs to the other group |
| InputRow.ScalarCells | app.py:53-58 | after building, each scalar column holds its input field, and `furnishing` holds the ordinal, not the label |
| InputRow.OtherCellsZero | app.py:49-65 | a nonzero cell is a scalar column or one of the two selected indicator columns; every other cell keeps its initial 0 |
| InputRow.GroupCells | app.py:60-65 | within a group, a column is 1 exactly when it is the selected category's indicator, and 0 otherwise |
| InputRow.MissingCategoryZero | app.py:62-65 | when the selected category's indicator column is absent, every column of the group is 0 and nothing fails |
| InputRow.SelectedCategoryOne | app.py:60-65 | when the selected category's indicator column exists, that column is 1 and is the only 1 in its group |
| InputRow.GroupIsolation | app.py:60-65 | changing one group's selection changes no cell outside that group, so neither indicator write reaches a scalar column or the other group |
| InputRow.SelectionRoundTrip | app.py:43-65 | a group column `prefix + x` with no `_` in `x` is offered as `x`, and selecting `x` sets exactly that column of the group to 1 |
| InputRow.TruncatedSelection | app.py:43-65 | a group column whose category contains `_` is offered cut short, and selecting the offered value leaves that column at 0 |
| InputRow.RowBounds | app.py:33-65 | with inputs inside the widget ranges, every cell of the row lies between 0 and 10000 |
| InputRow.ExampleRow | app.py:49-65 | the worked example with city `Pune`, locality `Kothrud` and `Furnished` gives the row `[900, 2, 2, 1, 2, 50, 1, 0, 1]` |
| InputRow.ExampleUnknownCity | app.py:60-63 | the same example with city `Nagpur`, which has no column, leaves both city cells at 0 |
| InputRow.ExampleTruncatedDomain | app.py:44 | `locality_Baner_Road` is offered as `Baner` |
| InputRow.ExampleTruncatedCategory | app.py:44 | `locality_Baner_Road` belongs to the locality group and its category is `Baner` |
| InputRow.ExampleTruncatedSelection | app.py:61-65 | selecting `Baner` leaves the `locality_Baner_Road` cell at 0 |
| InputRow.InputFrame.constructor | app.py:49-50 | the new frame has exactly the schema's columns and a single row of zeros, one per column |
| InputRow.InputFrame.SetAt | app.py:53-58 | writing an existing label changes that label's cell to the value and leaves every other cell as it was |
| InputRow.WriteScalars | app.py:53-58 | each of the six scalar columns receives its field, and `furnishing` receives the ordinal; every other cell keeps its value |
| InputRow.BuildRow | app.py:49-65 | the built row has one cell per schema column, in schema order, and equals the declarative row `Row(schema, fields)` |

## Left out

- Page setup, styling, markdown and layout (app.py:16-30, 67-83) are presentation only.
- Widget rendering and input capture (app.py:33-40, 45-46) are modelled as the `RawFields` parameter. The widget ranges appear only as the `WidgetRanges` premise of `RowBounds`, because the builder itself does not rely on them.
- The `sorted(...)` of the drop-down domains (app.py:45-46) only orders the options for display. `ExtractDomain` keeps schema order.
- Loading the model and the schema with `pickle` behind a resource cache (app.py:7-13) is file I/O. The schema is a parameter.
- `model.predict` (app.py:71) is an opaque call into a foreign library. The formatting of its floating-point result (app.py:80) is left out with it.
- Pandas-specific behaviour is left out: dtypes, `.at` adding a column for a label the frame lacks, and duplicate column labels. `BuildRow` requires a schema without duplicates that contains the six scalar names. `InputFrame` keeps its columns duplicate-free.
- Furnishing.Ordinal: a label outside the table raises a lookup error in the source. Here that is a precondition, because the furnishing drop-down offers only the three labels.
- An extracted category containing `_` is truncated. Whether that is intended depends on how the schema was produced, which is not part of this model. The as-written behaviour is proved (`CategoryTruncated`, `TruncatedSelection`) and nothing is corrected.
