/**
 * The page that owns the result list: a search replaces it wholesale with
 * every row unticked, the checkboxes tick rows by id or all at once, the
 * exporters receive the whole list, and the email dialog receives the
 * ticked rows. The search itself is simulated: five fixed rows, plus one
 * generated row per submitted spreadsheet row after the third.
 */
module Home {
  import opened Wrappers
  import opened Text
  import opened Types
  import Utils
  import ExcelUpload

  // ---------------------------------------------------------------------------
  // The simulated search response
  // ---------------------------------------------------------------------------

  /** The five fixed rows every simulated search returns first. */
  const MockResults: seq<ComponentResult> := [
    ComponentResult("1", "744771147", "Murata", "Inductors", "WE-LQS 744032", false),
    ComponentResult("2", "744773356", "TDK", "Capacitors", "WE-XHMI 74438356", false),
    ComponentResult("3", "744727825", "Vishay", "Resistors", "WE-MAPI 74437368", false),
    ComponentResult("4", "744725168", "Kemet", "Capacitors", "WE-CBAT 74437283", false),
    ComponentResult("5", "744779243", "TDK", "Inductors", "WE-PD 744778012", false)
  ]

  /** The categories a generated row draws from. */
  const Categories: seq<string> := ["Inductors", "Capacitors", "Resistors", "Connectors", "Diodes"]

  /** Submitted rows at positions below this one produce no generated row. */
  const SkippedItems: nat := 3

  const GeneratedPrefix: string := "generated-"

  /** The random draws behind one generated row: a category index and the alternative's number. */
  datatype ResultDraw = ResultDraw(category: nat, alternative: nat)

  /** One draw per submitted row, each in the range its `Math.floor(Math.random() * k)` can take. */
  predicate ValidResultDraws(items: seq<ExcelRowData>, draws: seq<ResultDraw>)
  {
    |draws| == |items|
    && forall i :: 0 <= i < |draws| ==> draws[i].category < |Categories| && draws[i].alternative < 1000000
  }

  /** The row generated for one submitted spreadsheet row. */
  function GeneratedRow(item: ExcelRowData, d: ResultDraw): (row: ComponentResult)
    requires d.category < |Categories|
    ensures row.id == GeneratedPrefix + item.id
    ensures row.productNumber == item.partNumber && row.competitor == item.manufacturer
    ensures row.category in Categories && !row.selected
    ensures |row.alternative| > 3 && row.alternative[..3] == "WE-"
  {
    ComponentResult(
      GeneratedPrefix + item.id,
      item.partNumber,
      item.manufacturer,
      Categories[d.category],
      "WE-" + NatToDecimal(d.alternative),
      false)
  }

  /** The number of generated rows for `k` submitted rows: max(0, k - 3). */
  function GeneratedCount(k: nat): nat
  {
    if k <= SkippedItems then 0 else k - SkippedItems
  }

  /** The response of the simulated spreadsheet search, as a whole. */
  function ExcelResponse(items: seq<ExcelRowData>, draws: seq<ResultDraw>): (response: seq<ComponentResult>)
    requires ValidResultDraws(items, draws)
    ensures |response| == |MockResults| + GeneratedCount(|items|)
    ensures response[..|MockResults|] == MockResults
  {
    MockResults + seq(GeneratedCount(|items|), j requires 0 <= j < GeneratedCount(|items|) =>
                        GeneratedRow(items[j + SkippedItems], draws[j + SkippedItems]))
  }

  /**
   * Where each row of the spreadsheet response comes from: the fixed rows
   * first, then at position j >= 5 the row generated for submitted row
   * j - 5 + 3 = j - 2.
   */
  lemma ExcelResponseAt(items: seq<ExcelRowData>, draws: seq<ResultDraw>, j: int)
    requires ValidResultDraws(items, draws)
    requires 0 <= j < |ExcelResponse(items, draws)|
    ensures |ExcelResponse(items, draws)| == 5 + GeneratedCount(|items|)
    ensures j < 5 ==> ExcelResponse(items, draws)[j] == MockResults[j]
    ensures j >= 5 ==> ExcelResponse(items, draws)[j] == GeneratedRow(items[j - 2], draws[j - 2])
  {
  }

  /**
   * The simulated spreadsheet search: a copy of the fixed rows, then one row
   * pushed per submitted row from the fourth on.
   */
  method ExcelMockSearch(items: seq<ExcelRowData>, draws: seq<ResultDraw>) returns (moreResults: seq<ComponentResult>)
    requires ValidResultDraws(items, draws)
    ensures moreResults == ExcelResponse(items, draws)
  {
    moreResults := MockResults;
    for index := 0 to |items|
      invariant |moreResults| == |MockResults| + GeneratedCount(index)
      invariant moreResults[..|MockResults|] == MockResults
      invariant forall j :: |MockResults| <= j < |moreResults| ==>
                  moreResults[j] == GeneratedRow(items[j - 2], draws[j - 2])
    {
      if index < SkippedItems {
        continue;
      }
      moreResults := moreResults + [GeneratedRow(items[index], draws[index])];
    }
    forall j | 0 <= j < |moreResults|
      ensures moreResults[j] == ExcelResponse(items, draws)[j]
    {
      ExcelResponseAt(items, draws, j);
    }
  }

  /** The simulated search for any workflow: the spreadsheet response, or the five fixed rows. */
  method MockSearch(query: SearchQuery, draws: seq<ResultDraw>) returns (data: seq<ComponentResult>)
    requires query.ExcelQuery? ==> ValidResultDraws(query.selectedItems, draws)
    ensures query.ExcelQuery? ==> data == ExcelResponse(query.selectedItems, draws)
    ensures !query.ExcelQuery? ==> data == MockResults
  {
    if query.ExcelQuery? {
      data := ExcelMockSearch(query.selectedItems, draws);
    } else {
      data := MockResults;
    }
  }

  /** All ids of a result list are different. */
  predicate DistinctResultIds(rows: seq<ComponentResult>)
  {
    forall i, j :: 0 <= i < j < |rows| ==> rows[i].id != rows[j].id
  }

  /**
   * The spreadsheet response is the five fixed rows followed by one row per
   * submitted row from the fourth on, which copies its id (with the
   * `generated-` prefix), part number and manufacturer, in submission order.
   */
  lemma ExcelResponseShape(items: seq<ExcelRowData>, draws: seq<ResultDraw>)
    requires ValidResultDraws(items, draws)
    ensures var r := ExcelResponse(items, draws);
            && |r| == 5 + (if |items| <= 3 then 0 else |items| - 3)
            && r[..5] == MockResults
            && forall j :: 5 <= j < |r| ==>
                 && r[j].id == GeneratedPrefix + items[j - 2].id
                 && r[j].productNumber == items[j - 2].partNumber
                 && r[j].competitor == items[j - 2].manufacturer
                 && r[j].category in Categories
                 && |r[j].alternative| > 3 && r[j].alternative[..3] == "WE-"
  {
    var r := ExcelResponse(items, draws);
    forall j | 5 <= j < |r|
      ensures r[j] == GeneratedRow(items[j - 2], draws[j - 2])
    {
      ExcelResponseAt(items, draws, j);
    }
    assert r[..5] == MockResults;
  }

  /**
   * Ids stay unique: with distinct submitted ids, no two response rows share
   * an id (the fixed ids are `1`..`5`, the others carry the prefix).
   */
  lemma ExcelResponseIdsDistinct(items: seq<ExcelRowData>, draws: seq<ResultDraw>)
    requires ValidResultDraws(items, draws)
    requires ExcelUpload.DistinctIds(items)
    ensures DistinctResultIds(ExcelResponse(items, draws))
  {
    var r := ExcelResponse(items, draws);
    forall i, j | 0 <= i < j < |r|
      ensures r[i].id != r[j].id
    {
      ExcelResponseAt(items, draws, i);
      ExcelResponseAt(items, draws, j);
      if j >= 5 {
        if i >= 5 {
          if r[i].id == r[j].id {
            PrefixInjective(GeneratedPrefix, items[i - 2].id, items[j - 2].id);
          }
        } else {
          assert |r[i].id| == 1;
        }
      }
    }
  }

  /**
   * Searching with rows ticked in a list whose ids are unique (such as the
   * uploaded preview) gives a result list with unique ids.
   */
  lemma SearchFromUniqueRowsIdsDistinct(rows: seq<ExcelRowData>, draws: seq<ResultDraw>)
    requires ExcelUpload.DistinctIds(rows)
    requires ValidResultDraws(ExcelUpload.SelectedItems(rows), draws)
    ensures DistinctResultIds(ExcelResponse(ExcelUpload.SelectedItems(rows), draws))
  {
    ExcelUpload.SelectedItemsDistinct(rows);
    ExcelResponseIdsDistinct(ExcelUpload.SelectedItems(rows), draws);
  }

  /** Every simulated category is a key of the badge table, so no simulated row shows the neutral badge. */
  lemma ResponseCategoriesKnown(items: seq<ExcelRowData>, draws: seq<ResultDraw>)
    requires ValidResultDraws(items, draws)
    ensures forall j :: 0 <= j < |ExcelResponse(items, draws)| ==>
              Utils.CategoryClass(ExcelResponse(items, draws)[j].category) != Utils.FallbackClass
  {
    var r := ExcelResponse(items, draws);
    forall j | 0 <= j < |r|
      ensures Utils.CategoryClass(r[j].category) != Utils.FallbackClass
    {
      ExcelResponseAt(items, draws, j);
    }
  }

  // ---------------------------------------------------------------------------
  // Selection over the result list
  // ---------------------------------------------------------------------------

  /** At least one result is ticked. */
  predicate AnyResultSelected(rows: seq<ComponentResult>)
  {
    exists i :: 0 <= i < |rows| && rows[i].selected
  }

  /** Every result with the given flag, nothing else changed. */
  function WithAllSelected(rows: seq<ComponentResult>, selected: bool): (r: seq<ComponentResult>)
    ensures |r| == |rows|
    ensures forall i :: 0 <= i < |rows| ==> r[i] == rows[i].(selected := selected)
  {
    seq(|rows|, i requires 0 <= i < |rows| => rows[i].(selected := selected))
  }

  /** The results after ticking (or unticking) those with the given id. */
  function WithSelection(rows: seq<ComponentResult>, id: string, selected: bool): (r: seq<ComponentResult>)
    ensures |r| == |rows|
    ensures forall i :: 0 <= i < |rows| ==> r[i].(selected := rows[i].selected) == rows[i]
    ensures forall i :: 0 <= i < |rows| && rows[i].id == id ==> r[i].selected == selected
    ensures forall i :: 0 <= i < |rows| && rows[i].id != id ==> r[i] == rows[i]
  {
    seq(|rows|, i requires 0 <= i < |rows| => if rows[i].id == id then rows[i].(selected := selected) else rows[i])
  }

  /** The ticked results, in list order. */
  function SelectedResults(rows: seq<ComponentResult>): (r: seq<ComponentResult>)
    ensures forall i :: 0 <= i < |r| ==> r[i].selected && r[i] in rows
  {
    if |rows| == 0 then []
    else
      var rest := SelectedResults(rows[1..]);
      assert forall i :: 0 <= i < |rest| ==> rest[i] in rows;
      (if rows[0].selected then [rows[0]] else []) + rest
  }

  /** The filter keeps every ticked result as often as it occurs and no unticked one. */
  lemma {:induction false} SelectedResultsCounts(rows: seq<ComponentResult>)
    ensures forall x :: multiset(SelectedResults(rows))[x] == if x.selected then multiset(rows)[x] else 0
  {
    if |rows| > 0 {
      var rest := rows[1..];
      SelectedResultsCounts(rest);
      var head := if rows[0].selected then [rows[0]] else [];
      assert rows == [rows[0]] + rest;
      assert multiset(rows) == multiset{rows[0]} + multiset(rest);
      assert multiset(SelectedResults(rows)) == multiset(head) + multiset(SelectedResults(rest));
      forall x
        ensures multiset(SelectedResults(rows))[x] == if x.selected then multiset(rows)[x] else 0
      {
        assert multiset(head)[x] == if x.selected then multiset{rows[0]}[x] else 0;
      }
    }
  }

  /** The filter is empty exactly when no result is ticked. */
  lemma {:induction false} SelectedResultsEmpty(rows: seq<ComponentResult>)
    ensures SelectedResults(rows) == [] <==> !AnyResultSelected(rows)
  {
    if |rows| > 0 {
      var rest := rows[1..];
      SelectedResultsEmpty(rest);
      if AnyResultSelected(rows) && !rows[0].selected {
        var i :| 0 <= i < |rows| && rows[i].selected;
        assert rest[i - 1].selected;
      }
      if AnyResultSelected(rest) {
        var i :| 0 <= i < |rest| && rest[i].selected;
        assert rows[i + 1].selected;
      }
    }
  }

  /**
   * The filter works element by element in list order: filtering a
   * concatenation gives the filtered parts in the same order.
   */
  lemma {:induction false} SelectedResultsAppend(a: seq<ComponentResult>, b: seq<ComponentResult>)
    ensures SelectedResults(a + b) == SelectedResults(a) + SelectedResults(b)
  {
    if |a| == 0 {
      assert a + b == b;
    } else {
      assert (a + b)[0] == a[0];
      assert (a + b)[1..] == a[1..] + b;
      SelectedResultsAppend(a[1..], b);
    }
  }

  /** A one-element list is kept exactly when its element passes. */
  lemma SelectedResultsSingle(x: ComponentResult)
    ensures SelectedResults([x]) == if x.selected then [x] else []
  {
    assert [x][1..] == [];
  }

  /** Ticking everything puts the whole list, in order, into the selection; unticking everything empties it. */
  lemma {:induction false} SelectedResultsOfAll(rows: seq<ComponentResult>)
    ensures SelectedResults(WithAllSelected(rows, true)) == WithAllSelected(rows, true)
    ensures SelectedResults(WithAllSelected(rows, false)) == []
  {
    if |rows| > 0 {
      SelectedResultsOfAll(rows[1..]);
      assert WithAllSelected(rows, true)[1..] == WithAllSelected(rows[1..], true);
      assert WithAllSelected(rows, false)[1..] == WithAllSelected(rows[1..], false);
    }
  }

  /** Selection is not exported as CSV: ticking rows never changes the CSV text (the JSON payload does carry the flags). */
  lemma ExportIgnoresSelection(rows: seq<ComponentResult>, id: string, selected: bool)
    ensures Utils.ExportCsv(WithSelection(rows, id, selected)) == Utils.ExportCsv(rows)
    ensures Utils.ExportCsv(WithAllSelected(rows, selected)) == Utils.ExportCsv(rows)
  {
    Utils.CsvIgnoresSelection(WithSelection(rows, id, selected), rows);
    Utils.CsvIgnoresSelection(WithAllSelected(rows, selected), rows);
  }

  // ---------------------------------------------------------------------------
  // The page state
  // ---------------------------------------------------------------------------

  /** The state of the page: the active intake tab, the result list and the email dialog flag. */
  class HomePage {
    var activeTab: string
    var results: seq<ComponentResult>
    var isEmailModalOpen: bool

    constructor ()
      ensures activeTab == "excel" && results == [] && !isEmailModalOpen
    {
      activeTab := "excel";
      results := [];
      isEmailModalOpen := false;
    }

    /** A completed search replaces the list wholesale, same rows in the same order, none ticked. */
    method OnSearchSuccess(data: seq<ComponentResult>)
      modifies this`results
      ensures results == WithAllSelected(data, false)
      ensures !AnyResultSelected(results)
    {
      results := WithAllSelected(data, false);
    }

    /** A spreadsheet search: the simulated response becomes the list. */
    method HandleExcelSearch(selectedItems: seq<ExcelRowData>, draws: seq<ResultDraw>)
      requires ValidResultDraws(selectedItems, draws)
      modifies this`results
      ensures results == WithAllSelected(ExcelResponse(selectedItems, draws), false)
    {
      var data := MockSearch(ExcelQuery(selectedItems), draws);
      OnSearchSuccess(data);
    }

    /** A manual search: the five fixed rows become the list. */
    method HandleManualSearch(productNumber: string, includeAlternatives: bool)
      modifies this`results
      ensures results == WithAllSelected(MockResults, false)
    {
      var data := MockSearch(ManualQuery(productNumber, includeAlternatives), []);
      OnSearchSuccess(data);
    }

    /** A camera search: the five fixed rows become the list. */
    method HandleCameraSearch(imageData: string)
      modifies this`results
      ensures results == WithAllSelected(MockResults, false)
    {
      var data := MockSearch(CameraQuery(imageData), []);
      OnSearchSuccess(data);
    }

    /** Ticking a row sets the flag of the rows with that id; every other row and field is unchanged. */
    method HandleToggleSelect(id: string, selected: bool)
      modifies this`results
      ensures results == WithSelection(old(results), id, selected)
    {
      results := WithSelection(results, id, selected);
    }

    /** The header checkbox sets the flag of every row of the list, not only the visible page. */
    method HandleToggleSelectAll(selected: bool)
      modifies this`results
      ensures results == WithAllSelected(old(results), selected)
    {
      results := WithAllSelected(results, selected);
    }

    /** CSV export receives the whole list, ticked or not. */
    method HandleExportCsv() returns (text: Option<string>)
      ensures text == Utils.ExportCsv(results)
      ensures text.None? <==> results == []
    {
      text := Utils.ExportCsv(results);
    }

    /** JSON export receives the whole list, ticked or not. */
    method HandleExportJson() returns (payload: Option<seq<ComponentResult>>)
      ensures payload.None? <==> results == []
      ensures payload.Some? ==> payload.value == results
    {
      payload := Utils.ExportJson(results);
    }

    /** The rows the email dialog receives: the ticked ones, in list order. */
    function ModalComponents(): (rows: seq<ComponentResult>)
      reads this
      ensures forall i :: 0 <= i < |rows| ==> rows[i].selected && rows[i] in results
      ensures forall x :: multiset(rows)[x] == if x.selected then multiset(results)[x] else 0
      ensures rows == [] <==> !AnyResultSelected(results)
    {
      SelectedResultsEmpty(results);
      SelectedResultsCounts(results);
      SelectedResults(results)
    }

    /** The email button opens the dialog only when some row is ticked; otherwise nothing changes. */
    method HandleEmailResults()
      modifies this`isEmailModalOpen
      ensures AnyResultSelected(results) ==> isEmailModalOpen
      ensures !AnyResultSelected(results) ==> isEmailModalOpen == old(isEmailModalOpen)
    {
      var selectedComponents := SelectedResults(results);
      SelectedResultsEmpty(results);
      if |selectedComponents| == 0 {
        return;
      }
      isEmailModalOpen := true;
    }

    /** Closing the dialog. */
    method CloseEmailModal()
      modifies this`isEmailModalOpen
      ensures !isEmailModalOpen
    {
      isEmailModalOpen := false;
    }

    /** Switching tabs sets the active tab only: the results and their flags stay as they were. */
    method SetActiveTab(tab: string)
      modifies this`activeTab
      ensures activeTab == tab
    {
      activeTab := tab;
    }
  }
}
