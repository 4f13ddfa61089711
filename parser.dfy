/**
 * The sheet extractor: selects the inventory sheets of a workbook, reads six
 * fields per data row at fixed column positions, and reports per-sheet row
 * counts and data-quality diagnostics.
 *
 * A workbook is the sequence of its sheets as already read: each sheet has its
 * name, the number of columns the reader found, and its data rows (title and
 * header rows already removed).
 */
module Parser {
  import opened Wrappers
  import opened Collections
  import Text

  /** Inventory sheets, the allow-list. */
  const InventorySheets: seq<string> :=
    ["Kits", "kit Components", "ColorChip", "Fleece", "Tiles", "Metal", "Wood", "Marketing"]

  /** Lookup and calculation sheets, the deny-list. */
  const IgnoreSheets: seq<string> := ["FULL 4 LOOK UP KEEP", "Componet Averages"]

  /** Zero-based column positions of the fields of one sheet layout. */
  datatype ColumnConfig = ColumnConfig(item: nat, sku: nat, kind: nat, display: nat, qoh: nat, avg: nat)

  const StandardColumns: ColumnConfig :=
    ColumnConfig(item := 1, sku := 2, kind := 3, display := 4, qoh := 5, avg := 6)

  /** The Wood layout has a lead-time column before quantity on hand. */
  const WoodColumns: ColumnConfig :=
    ColumnConfig(item := 1, sku := 2, kind := 3, display := 4, qoh := 7, avg := 6)

  function GetColumnConfig(sheetName: string): (c: ColumnConfig)
    ensures c == WoodColumns <==> sheetName == "Wood"
    ensures c != WoodColumns ==> c == StandardColumns
  {
    if sheetName == "Wood" then WoodColumns else StandardColumns
  }

  lemma LayoutsAgree(name: string)
    ensures var c := GetColumnConfig(name);
      c.item == 1 && c.sku == 2 && c.kind == 3 && c.display == 4 && c.avg == 6
    ensures GetColumnConfig(name).qoh == if name == "Wood" then 7 else 5
  {
  }

  /** A cell as read: text, a number (with the text Python shows for it), or empty. */
  datatype Cell = TextCell(s: string) | Number(value: real, shown: string) | Missing

  datatype Sheet = Sheet(name: string, width: nat, rows: seq<seq<Cell>>)

  /** One extracted row; the quantities are missing when their cells are not numeric. */
  datatype RawRow = RawRow(
    itemId: string,
    sku: string,
    category: string,
    displayName: string,
    qoh: Option<real>,
    monthlyAverage: Option<real>)

  /** The cell in column `k`; a row shorter than the sheet is padded with empty cells. */
  function CellAt(cells: seq<Cell>, k: nat): (c: Cell)
    ensures k >= |cells| ==> c == Missing
    ensures k < |cells| ==> c == cells[k]
  {
    if k < |cells| then cells[k] else Missing
  }

  /** The cell as text; an empty cell reads as "nan". */
  function CellString(c: Cell): string
  {
    match c
    case TextCell(s) => s
    case Number(_, shown) => shown
    case Missing => "nan"
  }

  /** Numeric coercion: a number stays, text that is not a number becomes missing. */
  function ToNumeric(c: Cell): (r: Option<real>)
    ensures c.Number? ==> r == Some(c.value)
    ensures c.Missing? ==> r.None?
    ensures c.TextCell? && |c.s| > 0 && c.s[0] == '#' ==> r.None?
  {
    match c
    case TextCell(s) => Text.ParseNumber(s)
    case Number(v, _) => Some(v)
    case Missing => None
  }

  /** Every column the extractor reads lies inside a sheet `width` columns wide. */
  predicate ColumnsFit(c: ColumnConfig, width: nat)
  {
    c.item < width && c.sku < width && c.display < width && c.qoh < width && c.avg < width
  }

  function ExtractRow(sheetName: string, c: ColumnConfig, cells: seq<Cell>): RawRow
  {
    RawRow(
      itemId := CellString(CellAt(cells, c.item)),
      sku := CellString(CellAt(cells, c.sku)),
      category := sheetName,
      displayName := CellString(CellAt(cells, c.display)),
      qoh := ToNumeric(CellAt(cells, c.qoh)),
      monthlyAverage := ToNumeric(CellAt(cells, c.avg)))
  }

  /** One extracted row per data row, in order. */
  function ExtractRows(sheetName: string, c: ColumnConfig, rows: seq<seq<Cell>>): (r: seq<RawRow>)
    ensures |r| == |rows|
  {
    if rows == [] then []
    else ExtractRows(sheetName, c, rows[..|rows| - 1]) + [ExtractRow(sheetName, c, rows[|rows| - 1])]
  }

  lemma {:induction false} ExtractRowsAt(sheetName: string, c: ColumnConfig, rows: seq<seq<Cell>>, i: nat)
    requires i < |rows|
    ensures ExtractRows(sheetName, c, rows)[i] == ExtractRow(sheetName, c, rows[i])
  {
    var n := |rows| - 1;
    if i < n {
      ExtractRowsAt(sheetName, c, rows[..n], i);
    }
  }

  /** The rows of one sheet, one per data row, or nothing when the sheet is too narrow for its layout. */
  function ParseSheet(sheet: Sheet): (r: seq<RawRow>)
    ensures !ColumnsFit(GetColumnConfig(sheet.name), sheet.width) ==> r == []
    ensures ColumnsFit(GetColumnConfig(sheet.name), sheet.width) ==> |r| == |sheet.rows|
  {
    var c := GetColumnConfig(sheet.name);
    if ColumnsFit(c, sheet.width) then ExtractRows(sheet.name, c, sheet.rows) else []
  }

  /**
   * Row `i` of a sheet is tagged with the sheet's name, takes its text fields
   * as text and its quantities by numeric coercion, each from the column the
   * sheet's layout assigns.
   */
  lemma ParseSheetRow(sheet: Sheet, i: nat)
    requires i < |ParseSheet(sheet)|
    ensures var r, c, cells := ParseSheet(sheet)[i], GetColumnConfig(sheet.name), sheet.rows[i];
      && r.category == sheet.name
      && r.itemId == CellString(CellAt(cells, c.item))
      && r.sku == CellString(CellAt(cells, c.sku))
      && r.displayName == CellString(CellAt(cells, c.display))
      && r.qoh == ToNumeric(CellAt(cells, c.qoh))
      && r.monthlyAverage == ToNumeric(CellAt(cells, c.avg))
  {
    ExtractRowsAt(sheet.name, GetColumnConfig(sheet.name), sheet.rows, i);
  }

  /** A Wood row and a standard row holding the same values in their own layouts extract alike. */
  lemma WoodLayoutMatchesStandard(wood: Sheet, std: Sheet, i: nat)
    requires wood.name == "Wood" && std.name != "Wood"
    requires wood.width >= 8 && std.width >= 7
    requires i < |wood.rows| && i < |std.rows|
    requires var w, t := wood.rows[i], std.rows[i];
      && CellAt(t, 1) == CellAt(w, 1) && CellAt(t, 2) == CellAt(w, 2) && CellAt(t, 4) == CellAt(w, 4)
      && CellAt(t, 5) == CellAt(w, 7) && CellAt(t, 6) == CellAt(w, 6)
    ensures ParseSheet(wood)[i].(category := std.name) == ParseSheet(std)[i]
  {
    ParseSheetRow(wood, i);
    ParseSheetRow(std, i);
  }

  /** The sheet is read: on the allow-list and not on the deny-list. */
  predicate Selected(sheetName: string)
  {
    sheetName !in IgnoreSheets && sheetName in InventorySheets
  }

  lemma SheetListsDisjoint(sheetName: string)
    ensures !(sheetName in InventorySheets && sheetName in IgnoreSheets)
    ensures Selected(sheetName) <==> sheetName in InventorySheets
  {
  }

  function SheetRows(sheet: Sheet): seq<RawRow>
  {
    if Selected(sheet.name) then ParseSheet(sheet) else []
  }

  function SheetName(sheet: Sheet): string
  {
    sheet.name
  }

  function RowCount(sheet: Sheet): nat
  {
    |SheetRows(sheet)|
  }

  /** The rows of all selected sheets, concatenated in workbook order. */
  function AllRows(workbook: seq<Sheet>): seq<RawRow>
  {
    FlatMap(workbook, SheetRows)
  }

  /** Every extracted row is tagged with the name of a selected sheet of the workbook. */
  lemma {:induction false} AllRowsCategories(workbook: seq<Sheet>)
    ensures forall row :: row in AllRows(workbook) ==>
      row.category in InventorySheets && exists i :: 0 <= i < |workbook| && workbook[i].name == row.category
  {
    if workbook != [] {
      var n := |workbook| - 1;
      var front := workbook[..n];
      AllRowsCategories(front);
      forall row | row in AllRows(workbook)
        ensures row.category in InventorySheets && exists i :: 0 <= i < |workbook| && workbook[i].name == row.category
      {
        if row in AllRows(front) {
          var j :| 0 <= j < |front| && front[j].name == row.category;
          assert workbook[j] == front[j];
        } else {
          var rows := SheetRows(workbook[n]);
          var j :| 0 <= j < |rows| && rows[j] == row;
          ParseSheetRow(workbook[n], j);
        }
      }
    }
  }

  /** Row counts of the selected sheets that yielded at least one row. */
  function Stats(workbook: seq<Sheet>): map<string, nat>
  {
    Tally(workbook, SheetName, RowCount)
  }

  /** Only selected sheets are counted, and every count is positive. */
  lemma StatsKeysSelected(workbook: seq<Sheet>)
    ensures forall k :: k in Stats(workbook) ==> Selected(k) && Stats(workbook)[k] > 0
  {
    TallyKeys(workbook, SheetName, RowCount);
  }

  /** Reads the workbook sheet by sheet, gathering rows and per-sheet counts. */
  method ParseExcel(workbook: seq<Sheet>) returns (allData: seq<RawRow>, stats: map<string, nat>)
    ensures allData == AllRows(workbook)
    ensures stats == Stats(workbook)
    ensures allData == [] <==> stats == map[]
  {
    allData, stats := [], map[];
    for i := 0 to |workbook|
      invariant allData == AllRows(workbook[..i])
      invariant stats == Stats(workbook[..i])
    {
      assert workbook[..i + 1][..i] == workbook[..i];
      var sheetName := workbook[i].name;
      if sheetName in IgnoreSheets {
        continue;
      }
      if sheetName !in InventorySheets {
        continue;
      }
      var df := ParseSheet(workbook[i]);
      if |df| > 0 {
        stats := stats[sheetName := |df|];
        allData := allData + df;
      }
    }
    assert workbook[..|workbook|] == workbook;
    EmptyRowsIffEmptyStats(workbook);
  }

  lemma {:induction false} EmptyRowsIffEmptyStats(workbook: seq<Sheet>)
    ensures AllRows(workbook) == [] <==> Stats(workbook) == map[]
  {
    if workbook != [] {
      var n := |workbook| - 1;
      EmptyRowsIffEmptyStats(workbook[..n]);
      if |SheetRows(workbook[n])| > 0 {
        assert workbook[n].name in Stats(workbook);
      }
    }
  }

  lemma AllRowsAppend(a: seq<Sheet>, b: seq<Sheet>)
    ensures AllRows(a + b) == AllRows(a) + AllRows(b)
  {
    FlatMapAppend(a, b, SheetRows);
  }

  /** A sheet too narrow for its layout contributes nothing, and the others are still read. */
  lemma {:induction false} NarrowSheetSkipped(workbook: seq<Sheet>, i: nat)
    requires i < |workbook|
    requires !ColumnsFit(GetColumnConfig(workbook[i].name), workbook[i].width)
    ensures AllRows(workbook) == AllRows(workbook[..i]) + AllRows(workbook[i + 1..])
  {
    var upTo := workbook[..i + 1];
    assert upTo[..i] == workbook[..i];
    assert AllRows(upTo) == AllRows(workbook[..i]);
    assert upTo + workbook[i + 1..] == workbook;
    AllRowsAppend(upTo, workbook[i + 1..]);
  }

  predicate DistinctNames(workbook: seq<Sheet>)
  {
    forall i, j :: 0 <= i < j < |workbook| ==> workbook[i].name != workbook[j].name
  }

  /** With distinct sheet names, each sheet has a count exactly when it yielded rows. */
  lemma StatsPerSheet(workbook: seq<Sheet>)
    requires DistinctNames(workbook)
    ensures forall i :: 0 <= i < |workbook| ==>
      && (workbook[i].name in Stats(workbook) <==> |SheetRows(workbook[i])| > 0)
      && (workbook[i].name in Stats(workbook) ==> Stats(workbook)[workbook[i].name] == |SheetRows(workbook[i])|)
    ensures forall k :: k in Stats(workbook) ==> exists i :: 0 <= i < |workbook| && workbook[i].name == k
  {
    assert DistinctKeys(workbook, SheetName);
    TallyPerElement(workbook, SheetName, RowCount);
    TallyKeys(workbook, SheetName, RowCount);
  }

  /** With distinct sheet names, the combined row count is the total of the per-sheet counts. */
  lemma {:induction false} RowCountIsStatsTotal(workbook: seq<Sheet>)
    requires DistinctNames(workbook)
    ensures |AllRows(workbook)| == SumValues(Stats(workbook))
  {
    if workbook != [] {
      var n := |workbook| - 1;
      var front := workbook[..n];
      RowCountIsStatsTotal(front);
      var rows := SheetRows(workbook[n]);
      if |rows| > 0 {
        StatsPerSheet(front);
        assert workbook[n].name !in Stats(front);
        SumValuesInsert(Stats(front), workbook[n].name, |rows|);
      }
    }
  }

  /** Spreadsheet error tokens counted by the diagnostics. */
  const ErrorTokens: seq<string> := ["#N/A", "#REF!", "#VALUE!"]

  predicate IsErrorToken(s: string)
  {
    s in ErrorTokens
  }

  /**
   * The cells of a row that can hold an error token: its text columns (the
   * numeric columns hold numbers or missing values only).
   */
  function TextFields(row: RawRow): seq<string>
  {
    [row.itemId, row.sku, row.displayName, row.category]
  }

  /** The number of the row's cells that hold an error token. */
  function ErrorCellsInRow(row: RawRow): (n: nat)
    ensures n == |PositionsWhere(TextFields(row), IsErrorToken)|
    ensures n <= 4
  {
    CountWhereIsCardinality(TextFields(row), IsErrorToken);
    CountWhere(TextFields(row), IsErrorToken)
  }

  function FormulaErrorCount(rows: seq<RawRow>): nat
  {
    if rows == [] then 0
    else FormulaErrorCount(rows[..|rows| - 1]) + ErrorCellsInRow(rows[|rows| - 1])
  }

  /** The frame's count is the number of error-token cells among all rows' cells, taken row by row. */
  lemma {:induction false} FormulaErrorCountIsCellCount(rows: seq<RawRow>)
    ensures FormulaErrorCount(rows) == |PositionsWhere(FlatMap(rows, TextFields), IsErrorToken)|
  {
    CountWhereOfCells(rows);
    CountWhereIsCardinality(FlatMap(rows, TextFields), IsErrorToken);
  }

  lemma {:induction false} CountWhereOfCells(rows: seq<RawRow>)
    ensures FormulaErrorCount(rows) == CountWhere(FlatMap(rows, TextFields), IsErrorToken)
  {
    if rows != [] {
      var n := |rows| - 1;
      CountWhereOfCells(rows[..n]);
      CountWhereAppend(FlatMap(rows[..n], TextFields), TextFields(rows[n]), IsErrorToken);
    }
  }

  /** The count is additive over a split of the frame into two parts. */
  lemma FormulaErrorCountAppend(a: seq<RawRow>, b: seq<RawRow>)
    ensures FormulaErrorCount(a + b) == FormulaErrorCount(a) + FormulaErrorCount(b)
  {
    CountWhereOfCells(a + b);
    CountWhereOfCells(a);
    CountWhereOfCells(b);
    FlatMapAppend(a, b, TextFields);
    CountWhereAppend(FlatMap(a, TextFields), FlatMap(b, TextFields), IsErrorToken);
  }

  /** A one-row frame counts that row's error-token cells. */
  lemma FormulaErrorCountSingle(row: RawRow)
    ensures FormulaErrorCount([row]) == ErrorCellsInRow(row)
  {
    assert [row][..0] == [];
  }

  /** Every error-token cell of every row is counted. */
  lemma {:induction false} FormulaErrorCountCoversRow(rows: seq<RawRow>, i: nat)
    requires i < |rows|
    ensures FormulaErrorCount(rows) >= ErrorCellsInRow(rows[i])
  {
    var n := |rows| - 1;
    if i < n {
      FormulaErrorCountCoversRow(rows[..n], i);
      assert rows[..n][i] == rows[i];
    }
  }

  function MissingQohCount(rows: seq<RawRow>): (n: nat)
    ensures n == |PositionsWhere(rows, (r: RawRow) => r.qoh.None?)|
  {
    CountWhereIsCardinality(rows, (r: RawRow) => r.qoh.None?);
    CountWhere(rows, (r: RawRow) => r.qoh.None?)
  }

  function MissingAverageCount(rows: seq<RawRow>): (n: nat)
    ensures n == |PositionsWhere(rows, (r: RawRow) => r.monthlyAverage.None?)|
  {
    CountWhereIsCardinality(rows, (r: RawRow) => r.monthlyAverage.None?);
    CountWhere(rows, (r: RawRow) => r.monthlyAverage.None?)
  }

  const FormulaErrorsSuffix := " cells contain Excel formula errors (#N/A, #REF!, etc.)"
  const MissingQohSuffix := " items have missing QOH values"
  const MissingAverageSuffix := " items have missing Monthly Average values"

  function FormulaErrorsMessage(n: nat): string
  {
    Text.NatText(n) + FormulaErrorsSuffix
  }

  function MissingQohMessage(n: nat): string
  {
    Text.NatText(n) + MissingQohSuffix
  }

  function MissingAverageMessage(n: nat): string
  {
    Text.NatText(n) + MissingAverageSuffix
  }

  /** The last `k` characters of `prefix + suffix` are those of `suffix`. */
  lemma EndsWith(prefix: string, suffix: string, k: nat)
    requires k <= |suffix|
    ensures (prefix + suffix)[|prefix + suffix| - k..] == suffix[|suffix| - k..]
  {
  }

  lemma FormulaVsQohMessage(a: nat, b: nat)
    ensures FormulaErrorsMessage(a) != MissingQohMessage(b)
  {
    EndsWith(Text.NatText(a), FormulaErrorsSuffix, 1);
    EndsWith(Text.NatText(b), MissingQohSuffix, 1);
    assert FormulaErrorsSuffix[|FormulaErrorsSuffix| - 1..] == ")";
    assert MissingQohSuffix[|MissingQohSuffix| - 1..] == "s";
  }

  lemma FormulaVsAverageMessage(a: nat, c: nat)
    ensures FormulaErrorsMessage(a) != MissingAverageMessage(c)
  {
    EndsWith(Text.NatText(a), FormulaErrorsSuffix, 1);
    EndsWith(Text.NatText(c), MissingAverageSuffix, 1);
    assert FormulaErrorsSuffix[|FormulaErrorsSuffix| - 1..] == ")";
    assert MissingAverageSuffix[|MissingAverageSuffix| - 1..] == "s";
  }

  lemma QohVsAverageMessage(b: nat, c: nat)
    ensures MissingQohMessage(b) != MissingAverageMessage(c)
  {
    EndsWith(Text.NatText(b), MissingQohSuffix, 10);
    EndsWith(Text.NatText(c), MissingAverageSuffix, 10);
    assert MissingQohSuffix[|MissingQohSuffix| - 10..] == "QOH values";
    assert MissingAverageSuffix[|MissingAverageSuffix| - 10..] == "age values";
  }

  /** The three kinds of message can never be confused with one another. */
  lemma MessagesDistinct(a: nat, b: nat, c: nat)
    ensures FormulaErrorsMessage(a) != MissingQohMessage(b)
    ensures FormulaErrorsMessage(a) != MissingAverageMessage(c)
    ensures MissingQohMessage(b) != MissingAverageMessage(c)
  {
    FormulaVsQohMessage(a, b);
    FormulaVsAverageMessage(a, c);
    QohVsAverageMessage(b, c);
  }

  /** The notes for the three counts, in a fixed order, each only when its count is positive. */
  function IssueList(e: nat, q: nat, a: nat): seq<string>
  {
    (if e > 0 then [FormulaErrorsMessage(e)] else [])
    + (if q > 0 then [MissingQohMessage(q)] else [])
    + (if a > 0 then [MissingAverageMessage(a)] else [])
  }

  /** Each kind of note is present exactly for its own positive count, and there are at most three. */
  lemma IssueListPresence(e: nat, q: nat, a: nat)
    ensures |IssueList(e, q, a)| <= 3
    ensures forall n :: FormulaErrorsMessage(n) in IssueList(e, q, a) <==> n == e > 0
    ensures forall n :: MissingQohMessage(n) in IssueList(e, q, a) <==> n == q > 0
    ensures forall n :: MissingAverageMessage(n) in IssueList(e, q, a) <==> n == a > 0
  {
    var issues := IssueList(e, q, a);
    forall n ensures FormulaErrorsMessage(n) in issues <==> n == e > 0 {
      MessagesDistinct(n, q, a);
      MessageCountInjective(n, e);
    }
    forall n ensures MissingQohMessage(n) in issues <==> n == q > 0 {
      MessagesDistinct(e, n, a);
      MessageCountInjective(n, q);
    }
    forall n ensures MissingAverageMessage(n) in issues <==> n == a > 0 {
      MessagesDistinct(e, q, n);
      MessageCountInjective(n, a);
    }
  }

  /** Data-quality notes: formula errors, missing QOH, missing average, each only when it occurs. */
  method GetParsingIssues(rows: seq<RawRow>) returns (issues: seq<string>)
    ensures issues == IssueList(FormulaErrorCount(rows), MissingQohCount(rows), MissingAverageCount(rows))
    ensures |issues| <= 3
    ensures forall n :: FormulaErrorsMessage(n) in issues <==> n == FormulaErrorCount(rows) > 0
    ensures forall n :: MissingQohMessage(n) in issues <==> n == MissingQohCount(rows) > 0
    ensures forall n :: MissingAverageMessage(n) in issues <==> n == MissingAverageCount(rows) > 0
  {
    issues := [];
    var naCount := FormulaErrorCount(rows);
    if naCount > 0 {
      issues := issues + [FormulaErrorsMessage(naCount)];
    }
    var missingQoh := MissingQohCount(rows);
    if missingQoh > 0 {
      issues := issues + [MissingQohMessage(missingQoh)];
    }
    var missingAvg := MissingAverageCount(rows);
    if missingAvg > 0 {
      issues := issues + [MissingAverageMessage(missingAvg)];
    }
    IssueListPresence(naCount, missingQoh, missingAvg);
  }

  /** A message determines the count it reports. */
  lemma MessageCountInjective(m: nat, n: nat)
    ensures FormulaErrorsMessage(m) == FormulaErrorsMessage(n) ==> m == n
    ensures MissingQohMessage(m) == MissingQohMessage(n) ==> m == n
    ensures MissingAverageMessage(m) == MissingAverageMessage(n) ==> m == n
  {
    var tm, tn := Text.NatText(m), Text.NatText(n);
    NatTextInjective(m, n);
    var f, q, a := FormulaErrorsSuffix, MissingQohSuffix, MissingAverageSuffix;
    if FormulaErrorsMessage(m) == FormulaErrorsMessage(n) {
      PrefixCancel(tm, tn, f);
    }
    if MissingQohMessage(m) == MissingQohMessage(n) {
      PrefixCancel(tm, tn, q);
    }
    if MissingAverageMessage(m) == MissingAverageMessage(n) {
      PrefixCancel(tm, tn, a);
    }
  }

  lemma NatTextInjective(m: nat, n: nat)
    ensures Text.NatText(m) == Text.NatText(n) ==> m == n
  {
    Text.NatTextRoundTrip(m);
    Text.NatTextRoundTrip(n);
  }

  lemma PrefixCancel(a: string, b: string, suffix: string)
    requires a + suffix == b + suffix
    ensures a == b
  {
    assert |a| == |b|;
    assert a == (a + suffix)[..|a|];
    assert b == (b + suffix)[..|b|];
  }
}
