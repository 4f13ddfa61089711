# Inventory reorder core, modelled in Dafny

This project models the core of a small inventory-reorder tool. The tool reads a
multi-sheet stock workbook and extracts one row per stocked product: its item
number, SKU, display name, quantity on hand (QOH) and monthly average demand. It
then classifies every product into one of four urgency tiers by months of stock
left, and computes a suggested order that brings stock up to three months of
demand. Finally it sorts, filters and counts the classified items, and projects
them into a display table and an export table.

Modules, following the program's structure:

- `Wrappers`: `Option`, modelling Python's `None` and pandas' missing values.
- `Collections`: generic sequence helpers used by the other modules:
  - `FilterMap`, an order-preserving filter-and-transform;
  - `CountWhere`, a count of matching elements;
  - `FlatMap`, concatenation of per-element pieces;
  - `Tally`, a map from key to count;
  - `SumValues`, the total of a map's values.

  `FilterMap` and `CountWhere` come with lemmas relating them to index positions and sets. `FlatMap`, `CountWhere` and `FilterMap` are shown to distribute over concatenation. `Tally` has lemmas on its keys and entries, and `SumValues` one on insertion.
- `Text`: decimal digits and the number grammar used for numeric coercion, and the
  rendering of counts into messages.
- `Models` (core/models.py): the urgency tiers, with their severity values,
  emoji and labels; the inventory item record; its status text.
- `Parser` (core/parser.py): sheet selection, the two column layouts, extraction of
  rows from a sheet, the workbook-wide gathering of rows and per-sheet counts,
  and the data-quality messages.
- `Calculator` (core/calculator.py): urgency and suggested-order arithmetic, row
  validity, the classification pipeline, sorting, alert filtering, tier counts,
  and the two table projections.

Modelling choices:

- Quantities are mathematical reals.
- Python's `int()` on a float truncates toward zero; this is `Calculator.Trunc`.
- The `(None, inf)` result of the urgency calculation is the constructor
  `Classification.NoDemand`.
- A workbook is a sequence of sheets. A sheet has a name, a column count, and
  rows of cells. A cell is text, a number, or empty.
- A number cell carries the text Python gives it with `str()`. That is the text
  the string columns hold after `astype(str)`. An empty cell reads as `"nan"`.
- For `pd.to_numeric(..., errors="coerce")` on a text cell, the model accepts an
  optional sign followed by decimal digits with at most one decimal point and at
  least one digit. Any other text becomes missing.
- The parsed frame is a sequence of `Parser.RawRow`.
- The loops of `parse_excel`, `process_inventory` and `count_by_urgency` are
  methods with loops. Each is proved against a specification function.
- The purely functional parts are functions with lemmas.

## Model

| member | source | states |
|---|---|---|
| Models.Value | core/models.py:7-12 | the severity values are 1 to 4 |
| Models.SeverityOrder | core/models.py:7-12 | Critical is more severe than Urgent, Urgent than Warning, and Warning than OK |
| Models.ValueInjective | core/models.py:7-12 | two tiers have the same severity value exactly when they are the same tier |
| Models.Emoji | core/models.py:14-21 | every tier's badge is a single code point |
| Models.EmojiInjective | core/models.py:14-21 | distinct tiers have distinct badges |
| Models.Label | core/models.py:23-30 | every tier has a label of at least two characters |
| Models.LabelInjective | core/models.py:23-30 | distinct tiers have distinct labels |
| Models.StatusDisplay | core/models.py:46-49 | the status text is the badge, one space, then the label |
| Models.StatusDisplayDeterminesTier | core/models.py:46-49 | two items have the same status text exactly when they have the same tier |
| Text.NatText | core/parser.py:121 | a count renders as decimal digits without a leading zero |
| Text.NatTextRoundTrip | core/parser.py:121 | reading the rendered digits back gives the count |
| Text.ParseNumber | core/parser.py:70-71 | text that coerces to a number starts with a digit, a sign or a decimal point |
| Text.DecimalValue | core/parser.py:70-71 | the value of a literal `whole.frac` lies between its whole part and the whole part plus one |
| Text.ParseUnsignedAccepts | core/parser.py:70-71 | unsigned text is accepted exactly when it is digits with at most one decimal point and at least one digit |
| Text.ParseUnsignedDecimal | core/parser.py:70-71 | a literal with a point reads as its whole part plus its fraction |
| Text.ParseUnsignedWhole | core/parser.py:70-71 | a literal without a point reads as the number its digits spell |
| Text.ParseNumberAccepts | core/parser.py:70-71 | text is accepted exactly when it is an unsigned literal, optionally after one `+` or `-` |
| Text.ParseNumberDecimal | core/parser.py:70-71 | a literal with a point reads as its value, with no sign and after `+` |
| Text.ParseNumberNegativeDecimal | core/parser.py:70-71 | a literal with a point after `-` reads as its value negated |
| Text.ParseNumberWhole | core/parser.py:70-71 | digits without a point, leading zeros allowed, read as the number they spell: unchanged with no sign or after `+`, negated after `-` |
| Text.DecimalExample | core/parser.py:70-71 | `"2.5"` reads as 2.5 |
| Text.NegativeFractionExample | core/parser.py:70-71 | `"-.5"` reads as -0.5 |
| Text.TrailingPointExample | core/parser.py:70-71 | `"7."` reads as 7 |
| Text.SignedWholeExamples | core/parser.py:70-71 | `"+12"` reads as 12 and `"-007"` as -7 |
| Text.MalformedExamples | core/parser.py:70-71 | `"1a"`, `"1.2.3"`, `"."`, `"-"` and the empty text read as missing |
| Text.NatTextParses | core/parser.py:70-71 | the decimal text of a whole number, with or without a minus sign, coerces to that number |
| Parser.GetColumnConfig | core/parser.py:44-48 | the Wood sheet gets the Wood layout and every other name the standard layout |
| Parser.LayoutsAgree | core/parser.py:25-41 | both layouts share the item, SKU, type, display and average columns and differ only in the QOH column (5 against 7) |
| Parser.ToNumeric | core/parser.py:70-71 | an empty cell is missing, a number cell keeps its value, and text starting with `#` (a formula error) is missing |
| Parser.ParseSheet | core/parser.py:51-77 | a sheet too narrow for its layout yields no rows; otherwise it yields exactly one row per data row |
| Parser.ParseSheetRow | core/parser.py:64-72 | each extracted row is tagged with its sheet name; its text fields are the cell text and its quantities the numeric coercion of the cells in the columns its layout names |
| Parser.WoodLayoutMatchesStandard | core/parser.py:34-48 | a Wood row whose QOH sits in column H extracts like a standard row whose QOH sits in column F |
| Parser.SheetListsDisjoint | core/parser.py:8-20 | no sheet is on both lists, so a sheet is read exactly when it is on the inventory list |
| Parser.AllRowsCategories | core/parser.py:95-111 | every combined row carries the name of an inventory sheet present in the workbook |
| Parser.StatsKeysSelected | core/parser.py:95-105 | only read sheets are counted and every count is positive |
| Parser.ParseExcel | core/parser.py:80-111 | the combined rows are the rows of the read sheets in workbook order, the counts are the per-sheet tally, and the rows are empty exactly when the counts are |
| Parser.EmptyRowsIffEmptyStats | core/parser.py:103-108 | no rows were gathered exactly when no sheet was counted |
| Parser.AllRowsAppend | core/parser.py:95-111 | gathering is compositional: the rows of two workbook parts concatenate |
| Parser.NarrowSheetSkipped | core/parser.py:73-75 | a sheet without the expected columns contributes nothing and the sheets around it are still read |
| Parser.StatsPerSheet | core/parser.py:101-105 | with distinct sheet names, a sheet is counted exactly when it yielded rows, its count is its number of rows, and every counted name is a sheet of the workbook |
| Parser.RowCountIsStatsTotal | core/parser.py:101-111 | with distinct sheet names, the number of combined rows is the sum of the per-sheet counts |
| Parser.ErrorCellsInRow | core/parser.py:119 | the count is the number of the row's text cells (item, SKU, display name, category) holding `#N/A`, `#REF!` or `#VALUE!`, so at most four |
| Parser.FormulaErrorCountIsCellCount | core/parser.py:119 | the frame's count is the number of error-token cells among all rows' text cells |
| Parser.FormulaErrorCountAppend | core/parser.py:119 | the count of a frame split in two is the sum of the counts of the parts |
| Parser.FormulaErrorCountSingle | core/parser.py:119 | a one-row frame counts exactly that row's error-token cells |
| Parser.FormulaErrorCountCoversRow | core/parser.py:119 | the frame's error-token count is at least that of any one row |
| Parser.MissingQohCount | core/parser.py:124 | the count is the number of rows whose QOH is missing |
| Parser.MissingAverageCount | core/parser.py:129 | the count is the number of rows whose monthly average is missing |
| Parser.MessagesDistinct | core/parser.py:120-131 | the three kinds of message can never coincide, whatever the counts |
| Parser.MessageCountInjective | core/parser.py:120-131 | a message determines the count rendered into it |
| Parser.IssueListPresence | core/parser.py:116-133 | the note of each kind is present exactly for its own positive count, and there are at most three notes |
| Parser.GetParsingIssues | core/parser.py:114-133 | the issues are the formula-error, missing-QOH and missing-average messages in that order; each is present exactly for its own count and only when that count is positive; there are at most three |
| Calculator.CalculateUrgency | core/calculator.py:12-34 | no demand exactly when the average is not positive; otherwise Critical exactly when QOH is not positive, Urgent below one month, Warning from one to under two months, and OK from two months; months of stock is 0 when out of stock and otherwise QOH divided by the average |
| Calculator.TierBoundaries | core/calculator.py:29-34 | exactly one month of stock is Warning and exactly two months is OK |
| Calculator.UrgencyMonotoneInStock | core/calculator.py:24-34 | at a fixed demand, more stock never gives a more severe tier |
| Calculator.Trunc | core/calculator.py:48 | truncation toward zero: within one of the real value, toward zero |
| Calculator.SuggestedOrder | core/calculator.py:37-48 | never negative; zero without demand; otherwise zero exactly when less than one unit is needed, and a positive order is the whole part of what is needed |
| Calculator.SuggestedOrderReachesTarget | core/calculator.py:37-48 | stock plus the order falls short of three months of demand by less than one unit and never exceeds it when an order is placed |
| Calculator.AnyFormulaMarker | core/calculator.py:62-64 | true exactly when some field starts with `#` |
| Calculator.IsValidRow | core/calculator.py:51-66 | valid exactly when both quantities are present and non-negative and none of SKU, display name and item number starts with `#` |
| Calculator.Classify | core/calculator.py:77-100 | a row yields an item exactly when it is valid with positive demand; the item is well formed (tier consistent with months of stock, non-negative figures) and built from the row's fields, the truncated QOH and the suggested order |
| Calculator.ProcessInventory | core/calculator.py:69-102 | the items are the rows' classifications in row order, and every item is well formed |
| Calculator.ProcessedRowsInOrder | core/calculator.py:77-102 | each item comes from a distinct row in increasing row order, every row that classifies is used, and rows without positive demand never are |
| Calculator.ProcessWorkbookBySheets | core/calculator.py:69-102 | processing the rows of a workbook is processing the rows of each part in turn and concatenating the items |
| Calculator.InOrderTransitive | core/calculator.py:111-114 | the sort key order is transitive |
| Calculator.InsertPermutes | core/calculator.py:111-114 | insertion adds exactly the inserted item |
| Calculator.InsertSorted | core/calculator.py:111-114 | insertion keeps a sorted list sorted |
| Calculator.SortItems | core/calculator.py:105-114 | the result is ordered by tier, most severe first, then by monthly average, highest first, and is a permutation of the input |
| Calculator.InsertKeepsTies | core/calculator.py:111-114 | insertion places an item before every existing item with an equal key, so that inserting each item into the sorted list of the items after it keeps equal keys in input order |
| Calculator.SortItemsStable | core/calculator.py:111-114 | items with equal keys keep their relative order (the sort is stable) |
| Calculator.SortedSeverityFirst | core/calculator.py:105-114 | after sorting, an item of a more severe tier always precedes one of a less severe tier |
| Calculator.AlertOf | core/calculator.py:125 | an item raises an alert exactly when its tier is not OK |
| Calculator.CountTier | core/calculator.py:128-133 | the count is the number of positions holding an item of that tier |
| Calculator.AlertsLength | core/calculator.py:125 | the alerts number the items minus the OK items |
| Calculator.FilterAlerts | core/calculator.py:117-125 | with OK items included the list is returned as is; otherwise an item is kept exactly when it is in the list and not OK, and only the OK items are dropped |
| Calculator.AlertsInOrder | core/calculator.py:125 | the alerts are the non-OK items in their original order, each at the position of its source item |
| Calculator.TierCountsSum | core/calculator.py:128-133 | the four tier counts add up to the number of items |
| Calculator.CountByUrgency | core/calculator.py:128-133 | the counts have a key for every tier, each the number of items of that tier, and they sum to the number of items |
| Calculator.PlaceholderMeansAmpleStock | core/calculator.py:149 | months of stock is shown as a placeholder exactly when stock covers at least 100 months of demand |
| Calculator.ToDataFrame | core/calculator.py:136-153 | one display row per item, in item order |
| Calculator.ToCsv | core/calculator.py:156-171 | one export row per item, in item order |
| Calculator.ProjectionsIdentifyTier | core/calculator.py:143-166 | each table's tier column tells two items' tiers apart |
| Calculator.DisplayAndCsvAgree | core/calculator.py:141-170 | the display and export rows of an item carry the same figures, and badge, space and label make up the item's status text |
| Calculator.ReferenceScenarios | core/calculator.py:12-48 | out of stock at demand 5 is Critical with an order of 15; 10 on hand at demand 20 is Urgent at half a month with an order of 50; 40 at 20 is OK at two months with an order of 20; no demand is untracked |
| Calculator.FormulaErrorRowDropped | core/calculator.py:61-64 | a row whose SKU is `#REF!` is dropped and is counted as a formula-error cell |

## Left out

- Reading the workbook file is not modelled. That covers `pd.ExcelFile`, `read_excel`, the title row and the header row. A workbook is given as data.
- The web interface (`app.py`) is not part of this model. That covers the upload, the category filter, the dashboard and the download button.
- Floating point is not modelled. Quantities are exact reals, so rounding error in `qoh / monthly_avg` and in the order formula is out of scope.
- Number formatting is not modelled. A number cell carries the text Python prints for it. The frame-dependent rendering of a numeric item column (for example `123.0`) is left to that text.
- `Text.ParseNumber` and `Parser.ToNumeric`: text is coerced by a plain decimal grammar. Surrounding whitespace, exponents, `inf`/`nan` spellings, booleans and dates, which pandas also accepts, become missing here.
- `Parser.ParseSheet`: a sheet's column count stands for the `IndexError` of positional column access. Rows shorter than the sheet read as empty cells.
- The unused `type` column of the layouts is kept in `Parser.ColumnConfig` but never read, as in the source.
- `Calculator.ToDataFrame` and `Calculator.ToCsv` do not model `round(..., 1)`, `round(..., 2)` or CSV text serialisation. `to_csv` of an empty list is not modelled. The display placeholder `"-"` and the export placeholder `""` are both `None`.
- `get_parsing_issues` raises `KeyError` on the column-less frame returned when nothing was read. The interface calls it only on non-empty frames, so that path is not modelled.
- `Parser.RowCountIsStatsTotal` and `Parser.StatsPerSheet` require distinct sheet names, as every spreadsheet file has them. With duplicate names, the last non-empty sheet's count wins in both the source and the model (`Collections.Tally`).
