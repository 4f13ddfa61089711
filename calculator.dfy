/**
 * The classifier and aggregator: row validation, months of stock and urgency,
 * suggested order quantity, and the sort, filter and count used for reporting.
 * Quantities are exact rationals.
 */
module Calculator {
  import opened Wrappers
  import opened Collections
  import opened Models
  import opened Parser

  /** Months of stock a suggested order aims for. */
  const TargetMonths: int := 3

  /** The outcome of classifying stock: no active demand, or a tier and the months of cover. */
  datatype Classification = NoDemand | Classified(urgency: Urgency, months: real)

  /** For positive `a`, dividing by `a` preserves comparisons against `k`. */
  lemma DivCompare(q: real, a: real, k: real)
    requires a > 0.0
    ensures q / a < k <==> q < k * a
    ensures (q / a) * a == q
  {
  }

  function CalculateUrgency(qoh: real, monthlyAvg: real): (r: Classification)
    ensures r.NoDemand? <==> monthlyAvg <= 0.0
    ensures r.Classified? ==> r.months >= 0.0
    ensures r.Classified? && qoh <= 0.0 ==> r.months == 0.0
    ensures r.Classified? && qoh > 0.0 ==> r.months * monthlyAvg == qoh
    ensures r.Classified? ==> (r.urgency == Critical <==> qoh <= 0.0)
    ensures r.Classified? ==> (r.urgency == Urgent <==> 0.0 < qoh < monthlyAvg)
    ensures r.Classified? ==> (r.urgency == Warning <==> 0.0 < monthlyAvg <= qoh < 2.0 * monthlyAvg)
    ensures r.Classified? ==> (r.urgency == Ok <==> 2.0 * monthlyAvg <= qoh)
  {
    if monthlyAvg <= 0.0 then NoDemand
    else if qoh <= 0.0 then Classified(Critical, 0.0)
    else
      var months := qoh / monthlyAvg;
      DivCompare(qoh, monthlyAvg, 1.0);
      DivCompare(qoh, monthlyAvg, 2.0);
      if months < 1.0 then Classified(Urgent, months)
      else if months < 2.0 then Classified(Warning, months)
      else Classified(Ok, months)
  }

  /** The tier boundaries are strict: exactly one month is a warning, exactly two is fine. */
  lemma TierBoundaries(monthlyAvg: real)
    requires monthlyAvg > 0.0
    ensures CalculateUrgency(monthlyAvg, monthlyAvg) == Classified(Warning, 1.0)
    ensures CalculateUrgency(2.0 * monthlyAvg, monthlyAvg) == Classified(Ok, 2.0)
  {
    DivCompare(monthlyAvg, monthlyAvg, 1.0);
    DivCompare(2.0 * monthlyAvg, monthlyAvg, 2.0);
  }

  /** More stock on hand never makes an item more urgent. */
  lemma UrgencyMonotoneInStock(q1: real, q2: real, monthlyAvg: real)
    requires monthlyAvg > 0.0 && q1 <= q2
    ensures Value(CalculateUrgency(q1, monthlyAvg).urgency) <= Value(CalculateUrgency(q2, monthlyAvg).urgency)
  {
  }

  /** Python's int() on a float: truncation toward zero. */
  function Trunc(x: real): (n: int)
    ensures x >= 0.0 ==> n as real <= x < n as real + 1.0
    ensures x < 0.0 ==> n as real - 1.0 < x <= n as real
  {
    if x >= 0.0 then x.Floor else -((-x).Floor)
  }

  /** Units to order to reach `targetMonths` of cover: the whole part of the shortfall, never negative. */
  function SuggestedOrder(qoh: real, monthlyAvg: real, targetMonths: int): (n: int)
    ensures n >= 0
    ensures monthlyAvg <= 0.0 ==> n == 0
    ensures monthlyAvg > 0.0 ==> (n == 0 <==> targetMonths as real * monthlyAvg - qoh < 1.0)
    ensures n > 0 ==> n as real <= targetMonths as real * monthlyAvg - qoh < n as real + 1.0
  {
    if monthlyAvg <= 0.0 then 0
    else
      var needed := Trunc(targetMonths as real * monthlyAvg - qoh);
      if needed > 0 then needed else 0
  }

  /** Ordering the suggestion leaves stock below the target by less than one unit, and never above it. */
  lemma SuggestedOrderReachesTarget(qoh: real, monthlyAvg: real)
    requires monthlyAvg > 0.0
    ensures var n := SuggestedOrder(qoh, monthlyAvg, TargetMonths);
      && qoh + n as real > 3.0 * monthlyAvg - 1.0
      && (n > 0 ==> qoh + n as real <= 3.0 * monthlyAvg)
  {
  }

  /** The marker a broken spreadsheet formula leaves in a text cell. */
  predicate StartsWithHash(s: string)
  {
    |s| > 0 && s[0] == '#'
  }

  function AnyFormulaMarker(fields: seq<string>): (b: bool)
    ensures b <==> exists i :: 0 <= i < |fields| && StartsWithHash(fields[i])
  {
    if fields == [] then false
    else
      assert forall i :: 0 < i < |fields| ==> fields[i] == fields[1..][i - 1];
      StartsWithHash(fields[0]) || AnyFormulaMarker(fields[1..])
  }

  function IsValidRow(row: RawRow): (b: bool)
    ensures b <==>
      && row.qoh.Some? && row.monthlyAverage.Some?
      && row.qoh.value >= 0.0 && row.monthlyAverage.value >= 0.0
      && !StartsWithHash(row.sku) && !StartsWithHash(row.displayName) && !StartsWithHash(row.itemId)
  {
    if row.qoh.None? || row.monthlyAverage.None? then false
    else if row.qoh.value < 0.0 || row.monthlyAverage.value < 0.0 then false
    else
      var fields := [row.sku, row.displayName, row.itemId];
      assert fields[0] == row.sku && fields[1] == row.displayName && fields[2] == row.itemId;
      !AnyFormulaMarker(fields)
  }

  /** `it` carries the row's identity, its demand, its truncated stock and the figures computed from the exact stock. */
  predicate BuiltFrom(it: InventoryItem, row: RawRow)
  {
    && row.qoh.Some? && row.monthlyAverage.Some?
    && it.itemId == row.itemId && it.sku == row.sku
    && it.category == row.category && it.displayName == row.displayName
    && it.monthlyAverage == row.monthlyAverage.value
    && it.qoh as real <= row.qoh.value < it.qoh as real + 1.0
    && it.suggestedOrderQty == SuggestedOrder(row.qoh.value, row.monthlyAverage.value, TargetMonths)
    && CalculateUrgency(row.qoh.value, row.monthlyAverage.value) == Classified(it.urgency, it.monthsOfStock)
  }

  /** The item a row becomes, or nothing for an invalid row or one without demand. */
  function Classify(row: RawRow): (r: Option<InventoryItem>)
    ensures r.Some? <==> IsValidRow(row) && row.monthlyAverage.value > 0.0
    ensures r.Some? ==> WellFormed(r.value) && BuiltFrom(r.value, row)
  {
    if !IsValidRow(row) then None
    else
      var qoh, avg := row.qoh.value, row.monthlyAverage.value;
      match CalculateUrgency(qoh, avg)
      case NoDemand => None
      case Classified(urgency, months) =>
        Some(InventoryItem(
          itemId := row.itemId,
          sku := row.sku,
          category := row.category,
          displayName := row.displayName,
          qoh := Trunc(qoh),
          monthlyAverage := avg,
          monthsOfStock := months,
          urgency := urgency,
          suggestedOrderQty := SuggestedOrder(qoh, avg, TargetMonths)))
  }

  /** Turns extracted rows into items, in row order, skipping invalid rows and rows without demand. */
  method ProcessInventory(rows: seq<RawRow>) returns (items: seq<InventoryItem>)
    ensures items == FilterMap(rows, Classify)
    ensures forall k :: 0 <= k < |items| ==> WellFormed(items[k])
  {
    items := [];
    for i := 0 to |rows|
      invariant items == FilterMap(rows[..i], Classify)
    {
      assert rows[..i + 1][..i] == rows[..i];
      var row := rows[i];
      if !IsValidRow(row) {
        assert Classify(row) == None;
        continue;
      }
      var qoh, avg := row.qoh.value, row.monthlyAverage.value;
      var c := CalculateUrgency(qoh, avg);
      if c.NoDemand? {
        assert Classify(row) == None;
        continue;
      }
      var item := InventoryItem(
        itemId := row.itemId,
        sku := row.sku,
        category := row.category,
        displayName := row.displayName,
        qoh := Trunc(qoh),
        monthlyAverage := avg,
        monthsOfStock := c.months,
        urgency := c.urgency,
        suggestedOrderQty := SuggestedOrder(qoh, avg, TargetMonths));
      assert Classify(row) == Some(item);
      items := items + [item];
    }
    assert rows[..|rows|] == rows;
    FilterMapMembers(rows, Classify);
    forall k | 0 <= k < |items| ensures WellFormed(items[k]) {
      assert items[k] in items;
    }
  }

  /**
   * The processed items are the rows that classify, in row order: each item
   * comes from its own row with active demand, and every such row yields one.
   */
  lemma ProcessedRowsInOrder(rows: seq<RawRow>) returns (idx: seq<int>)
    ensures SelectsAt(rows, FilterMap(rows, Classify), idx, Classify)
    ensures forall k :: 0 <= k < |idx| ==>
      && rows[idx[k]].monthlyAverage.Some? && rows[idx[k]].monthlyAverage.value > 0.0
      && BuiltFrom(FilterMap(rows, Classify)[k], rows[idx[k]])
    ensures forall i :: 0 <= i < |rows| && rows[i].monthlyAverage.Some? && rows[i].monthlyAverage.value <= 0.0 ==> i !in idx
  {
    idx := FilterMapSelects(rows, Classify);
  }

  /** Processing a workbook is processing its parts in turn and concatenating the items. */
  lemma ProcessWorkbookBySheets(a: seq<Sheet>, b: seq<Sheet>)
    ensures FilterMap(AllRows(a + b), Classify) == FilterMap(AllRows(a), Classify) + FilterMap(AllRows(b), Classify)
  {
    AllRowsAppend(a, b);
    FilterMapAppend(AllRows(a), AllRows(b), Classify);
  }

  // ----- Sorting -----

  /** `x` sorts strictly before `y`: more severe, or equally severe with higher demand. */
  predicate SortsBefore(x: InventoryItem, y: InventoryItem)
  {
    || Value(x.urgency) < Value(y.urgency)
    || (Value(x.urgency) == Value(y.urgency) && x.monthlyAverage > y.monthlyAverage)
  }

  /** `x` may come before `y`: no less severe, and within a tier no lower demand. */
  predicate InOrder(x: InventoryItem, y: InventoryItem)
  {
    && Value(x.urgency) <= Value(y.urgency)
    && (x.urgency == y.urgency ==> x.monthlyAverage >= y.monthlyAverage)
  }

  /** Tiers from most to least severe; within a tier, demand from highest to lowest. */
  predicate Sorted(s: seq<InventoryItem>)
  {
    forall i, j :: 0 <= i < j < |s| ==> InOrder(s[i], s[j])
  }

  lemma InOrderTransitive(x: InventoryItem, y: InventoryItem, z: InventoryItem)
    requires InOrder(x, y) && InOrder(y, z)
    ensures InOrder(x, z)
  {
    ValueInjective(x.urgency, y.urgency);
    ValueInjective(y.urgency, z.urgency);
    ValueInjective(x.urgency, z.urgency);
  }

  /** Places `x` before the first element that does not sort strictly before it. */
  function Insert(x: InventoryItem, s: seq<InventoryItem>): seq<InventoryItem>
  {
    if s == [] then [x]
    else if SortsBefore(s[0], x) then [s[0]] + Insert(x, s[1..])
    else [x] + s
  }

  lemma {:induction false} InsertPermutes(x: InventoryItem, s: seq<InventoryItem>)
    ensures multiset(Insert(x, s)) == multiset(s) + multiset{x}
  {
    if s != [] && SortsBefore(s[0], x) {
      InsertPermutes(x, s[1..]);
      assert s == [s[0]] + s[1..];
    }
  }

  /** A lower bound of `x` and of every element of `s` is a lower bound of `Insert(x, s)`. */
  lemma {:induction false} InsertLowerBound(y: InventoryItem, x: InventoryItem, s: seq<InventoryItem>)
    requires InOrder(y, x) && forall j :: 0 <= j < |s| ==> InOrder(y, s[j])
    ensures forall j :: 0 <= j < |Insert(x, s)| ==> InOrder(y, Insert(x, s)[j])
  {
    if s != [] && SortsBefore(s[0], x) {
      InsertLowerBound(y, x, s[1..]);
      assert forall j :: 0 < j < |s| ==> s[1..][j - 1] == s[j];
    }
  }

  lemma {:induction false} InsertSorted(x: InventoryItem, s: seq<InventoryItem>)
    requires Sorted(s)
    ensures Sorted(Insert(x, s))
  {
    if s != [] {
      var r := Insert(x, s);
      if SortsBefore(s[0], x) {
        var rest := s[1..];
        var ir := Insert(x, rest);
        assert Sorted(ir) by {
          assert Sorted(rest);
          InsertSorted(x, rest);
        }
        assert forall j :: 0 <= j < |ir| ==> InOrder(s[0], ir[j]) by {
          ValueInjective(s[0].urgency, x.urgency);
          assert forall j :: 0 <= j < |rest| ==> rest[j] == s[j + 1];
          InsertLowerBound(s[0], x, rest);
        }
        assert r == [s[0]] + ir;
      } else {
        ValueInjective(x.urgency, s[0].urgency);
        assert forall j :: 0 <= j < |s| ==> InOrder(x, s[j]) by {
          forall j | 0 <= j < |s| ensures InOrder(x, s[j]) {
            if j > 0 {
              InOrderTransitive(x, s[0], s[j]);
            }
          }
        }
        assert r == [x] + s;
      }
    }
  }

  /** A stable sort by (tier value, minus monthly demand). */
  function SortItems(items: seq<InventoryItem>): (r: seq<InventoryItem>)
    ensures Sorted(r)
    ensures multiset(r) == multiset(items)
  {
    if items == [] then []
    else
      assert items == [items[0]] + items[1..];
      InsertSorted(items[0], SortItems(items[1..]));
      InsertPermutes(items[0], SortItems(items[1..]));
      Insert(items[0], SortItems(items[1..]))
  }

  /** Equal sort keys: the same tier value and the same monthly demand. */
  predicate SameKey(x: InventoryItem, y: InventoryItem)
  {
    Value(x.urgency) == Value(y.urgency) && x.monthlyAverage == y.monthlyAverage
  }

  /** The items of `s` whose sort key equals that of `k`, in their order in `s`. */
  function Ties(s: seq<InventoryItem>, k: InventoryItem): seq<InventoryItem>
  {
    if s == [] then []
    else (if SameKey(s[0], k) then [s[0]] else []) + Ties(s[1..], k)
  }

  lemma {:induction false} InsertKeepsTies(x: InventoryItem, s: seq<InventoryItem>, k: InventoryItem)
    ensures Ties(Insert(x, s), k) == (if SameKey(x, k) then [x] else []) + Ties(s, k)
  {
    if s != [] && SortsBefore(s[0], x) {
      var r := Insert(x, s);
      assert r[0] == s[0] && r[1..] == Insert(x, s[1..]);
      InsertKeepsTies(x, s[1..], k);
    }
  }

  /** Items with equal sort keys keep their input order. */
  lemma {:induction false} SortItemsStable(items: seq<InventoryItem>, k: InventoryItem)
    ensures Ties(SortItems(items), k) == Ties(items, k)
  {
    if items != [] {
      SortItemsStable(items[1..], k);
      InsertKeepsTies(items[0], SortItems(items[1..]), k);
    }
  }

  /** In the sorted list a more severe item always comes before a less severe one. */
  lemma SortedSeverityFirst(items: seq<InventoryItem>, i: nat, j: nat)
    requires i < |SortItems(items)| && j < |SortItems(items)|
    requires MoreSevere(SortItems(items)[i].urgency, SortItems(items)[j].urgency)
    ensures i < j
  {
  }

  // ----- Filtering and counting -----

  /** Keeps the items that need attention. */
  function AlertOf(x: InventoryItem): (r: Option<InventoryItem>)
    ensures r.Some? <==> x.urgency != Ok
    ensures r.Some? ==> r.value == x
  {
    if x.urgency != Ok then Some(x) else None
  }

  function HasTier(u: Urgency): InventoryItem -> bool
  {
    (x: InventoryItem) => x.urgency == u
  }

  /** The number of items in tier `u`. */
  function CountTier(items: seq<InventoryItem>, u: Urgency): (n: nat)
    ensures n == |PositionsWhere(items, HasTier(u))|
  {
    CountWhereIsCardinality(items, HasTier(u));
    CountWhere(items, HasTier(u))
  }

  lemma {:induction false} AlertsLength(items: seq<InventoryItem>)
    ensures |FilterMap(items, AlertOf)| == |items| - CountTier(items, Ok)
  {
    if items != [] {
      AlertsLength(items[..|items| - 1]);
    }
  }

  /** All items when `includeOk`; otherwise, in order, exactly those needing attention. */
  function FilterAlerts(items: seq<InventoryItem>, includeOk: bool): (r: seq<InventoryItem>)
    ensures includeOk ==> r == items
    ensures !includeOk ==> forall x :: x in r <==> x in items && x.urgency != Ok
    ensures !includeOk ==> |r| == |items| - CountTier(items, Ok)
  {
    if includeOk then items
    else
      FilterMapMembers(items, AlertOf);
      AlertsLength(items);
      FilterMap(items, AlertOf)
  }

  /** The alert list is the order-preserving subsequence of the non-OK items. */
  lemma AlertsInOrder(items: seq<InventoryItem>) returns (idx: seq<int>)
    ensures SelectsAt(items, FilterAlerts(items, false), idx, AlertOf)
    ensures forall k :: 0 <= k < |idx| ==> FilterAlerts(items, false)[k] == items[idx[k]]
    ensures forall i :: 0 <= i < |items| ==> (i in idx <==> items[i].urgency != Ok)
  {
    idx := FilterMapSelects(items, AlertOf);
  }

  lemma {:induction false} TierCountsSum(items: seq<InventoryItem>)
    ensures CountTier(items, Critical) + CountTier(items, Urgent)
          + CountTier(items, Warning) + CountTier(items, Ok) == |items|
  {
    if items != [] {
      TierCountsSum(items[..|items| - 1]);
    }
  }

  const AllTiers: set<Urgency> := {Critical, Urgent, Warning, Ok}

  /** A zero-filled count of items per tier. */
  method CountByUrgency(items: seq<InventoryItem>) returns (counts: map<Urgency, nat>)
    ensures counts.Keys == AllTiers
    ensures forall u :: u in AllTiers && counts[u] == CountTier(items, u)
    ensures counts[Critical] + counts[Urgent] + counts[Warning] + counts[Ok] == |items|
  {
    counts := map[Critical := 0, Urgent := 0, Warning := 0, Ok := 0];
    assert items[..0] == [];
    forall u ensures u in AllTiers && counts[u] == 0 {
      match u
      case Critical =>
      case Urgent =>
      case Warning =>
      case Ok =>
    }
    for i := 0 to |items|
      invariant counts.Keys == AllTiers
      invariant forall u :: u in AllTiers && counts[u] == CountWhere(items[..i], HasTier(u))
    {
      assert items[..i + 1][..i] == items[..i];
      var u := items[i].urgency;
      counts := counts[u := counts[u] + 1];
    }
    assert items[..|items|] == items;
    TierCountsSum(items);
  }

  // ----- Report projections -----

  /** Months of cover as shown: the value below 100 months, a placeholder otherwise. */
  function MonthsCell(months: real): Option<real>
  {
    if months < 100.0 then Some(months) else None
  }

  /** The placeholder is shown exactly when stock covers at least 100 months of demand. */
  lemma PlaceholderMeansAmpleStock(row: RawRow)
    requires Classify(row).Some?
    ensures MonthsCell(Classify(row).value.monthsOfStock).None? <==> row.qoh.value >= 100.0 * row.monthlyAverage.value
  {
    var q, a := row.qoh.value, row.monthlyAverage.value;
    if q > 0.0 {
      DivCompare(q, a, 100.0);
    }
  }

  /** One row of the display table (rounding of the figures is not modelled). */
  datatype DisplayRow = DisplayRow(
    status: string, product: string, sku: string, category: string,
    onHand: int, monthlyUse: real, monthsLeft: Option<real>, suggestedOrder: int)

  /** One row of the export (rounding and text serialisation are not modelled). */
  datatype CsvRow = CsvRow(
    urgency: string, product: string, sku: string, category: string,
    qoh: int, monthlyAverage: real, monthsOfStock: Option<real>, suggestedOrderQty: int)

  function ToDisplayRow(it: InventoryItem): DisplayRow
  {
    DisplayRow(Emoji(it.urgency), it.displayName, it.sku, it.category,
      it.qoh, it.monthlyAverage, MonthsCell(it.monthsOfStock), it.suggestedOrderQty)
  }

  function ToCsvRow(it: InventoryItem): CsvRow
  {
    CsvRow(Label(it.urgency), it.displayName, it.sku, it.category,
      it.qoh, it.monthlyAverage, MonthsCell(it.monthsOfStock), it.suggestedOrderQty)
  }

  function ToDataFrame(items: seq<InventoryItem>): (rows: seq<DisplayRow>)
    ensures |rows| == |items|
    ensures forall i :: 0 <= i < |items| ==> rows[i] == ToDisplayRow(items[i])
  {
    if items == [] then [] else [ToDisplayRow(items[0])] + ToDataFrame(items[1..])
  }

  function ToCsv(items: seq<InventoryItem>): (rows: seq<CsvRow>)
    ensures |rows| == |items|
    ensures forall i :: 0 <= i < |items| ==> rows[i] == ToCsvRow(items[i])
  {
    if items == [] then [] else [ToCsvRow(items[0])] + ToCsv(items[1..])
  }

  /** Both projections keep the item order and identify each row's tier. */
  lemma ProjectionsIdentifyTier(items: seq<InventoryItem>, i: nat, j: nat)
    requires i < |items| && j < |items|
    ensures ToDataFrame(items)[i].status == ToDataFrame(items)[j].status <==> items[i].urgency == items[j].urgency
    ensures ToCsv(items)[i].urgency == ToCsv(items)[j].urgency <==> items[i].urgency == items[j].urgency
  {
    EmojiInjective(items[i].urgency, items[j].urgency);
    LabelInjective(items[i].urgency, items[j].urgency);
  }

  /** The display row and the export row of an item carry the same figures; their tier columns make up its status text. */
  lemma DisplayAndCsvAgree(items: seq<InventoryItem>, i: nat)
    requires i < |items|
    ensures var d, c := ToDataFrame(items)[i], ToCsv(items)[i];
      && d.product == c.product == items[i].displayName
      && d.sku == c.sku == items[i].sku
      && d.category == c.category == items[i].category
      && d.onHand == c.qoh == items[i].qoh
      && d.monthlyUse == c.monthlyAverage == items[i].monthlyAverage
      && d.monthsLeft == c.monthsOfStock
      && d.suggestedOrder == c.suggestedOrderQty == items[i].suggestedOrderQty
      && d.status + " " + c.urgency == StatusDisplay(items[i])
  {
  }

  /** Reference rows: {0, 5}, {10, 20}, {40, 20} and {5, 0}. */
  lemma ReferenceScenarios()
    ensures CalculateUrgency(0.0, 5.0) == Classified(Critical, 0.0) && SuggestedOrder(0.0, 5.0, TargetMonths) == 15
    ensures CalculateUrgency(10.0, 20.0) == Classified(Urgent, 0.5) && SuggestedOrder(10.0, 20.0, TargetMonths) == 50
    ensures CalculateUrgency(40.0, 20.0) == Classified(Ok, 2.0) && SuggestedOrder(40.0, 20.0, TargetMonths) == 20
    ensures CalculateUrgency(5.0, 0.0) == NoDemand
  {
  }

  /** A row whose SKU is a formula error is dropped whatever its quantities. */
  lemma FormulaErrorRowDropped(row: RawRow)
    requires row.sku == "#REF!"
    ensures Classify(row) == None
    ensures ErrorCellsInRow(row) > 0
  {
    assert row.sku[0] == '#';
    assert 1 in PositionsWhere(TextFields(row), IsErrorToken);
  }
}
