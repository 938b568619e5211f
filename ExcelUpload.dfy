/**
 * The spreadsheet intake: a list of picked files, a simulated upload that
 * yields fifteen bill-of-materials rows, per-row and select-all checkboxes,
 * and a search that submits the ticked rows.
 */
module ExcelUpload {
  import opened Wrappers
  import opened Text
  import opened Types

  // ---------------------------------------------------------------------------
  // Files
  // ---------------------------------------------------------------------------

  /** A picked or dropped file, known by its name and MIME type. */
  datatype UploadFile = UploadFile(name: string, mimeType: string)

  const XlsxMime: string := "application/vnd.openxmlformats-officedocument.spreadsheetml.sheet"
  const CsvMime: string := "text/csv"

  /** The drop zone accepts an `.xlsx` workbook or a CSV file. */
  predicate IsSpreadsheet(f: UploadFile)
  {
    f.mimeType == XlsxMime || f.mimeType == CsvMime
  }

  /** The dropped files that pass the MIME filter, in drop order. */
  function SpreadsheetsOnly(files: seq<UploadFile>): (kept: seq<UploadFile>)
    ensures forall i :: 0 <= i < |kept| ==> IsSpreadsheet(kept[i]) && kept[i] in files
  {
    if |files| == 0 then []
    else
      var rest := SpreadsheetsOnly(files[1..]);
      assert forall i :: 0 <= i < |rest| ==> rest[i] in files;
      (if IsSpreadsheet(files[0]) then [files[0]] else []) + rest
  }

  /** The filter keeps every spreadsheet as often as it was dropped and nothing else. */
  lemma {:induction false} SpreadsheetsOnlyCounts(files: seq<UploadFile>)
    ensures forall f :: multiset(SpreadsheetsOnly(files))[f] == if IsSpreadsheet(f) then multiset(files)[f] else 0
  {
    if |files| > 0 {
      var rest := files[1..];
      SpreadsheetsOnlyCounts(rest);
      var head := if IsSpreadsheet(files[0]) then [files[0]] else [];
      assert files == [files[0]] + rest;
      assert multiset(files) == multiset{files[0]} + multiset(rest);
      assert multiset(SpreadsheetsOnly(files)) == multiset(head) + multiset(SpreadsheetsOnly(rest));
      forall f
        ensures multiset(SpreadsheetsOnly(files))[f] == if IsSpreadsheet(f) then multiset(files)[f] else 0
      {
        assert multiset(head)[f] == if IsSpreadsheet(f) then multiset{files[0]}[f] else 0;
      }
    }
  }

  /** Nothing is kept exactly when no dropped file is a spreadsheet. */
  lemma {:induction false} SpreadsheetsOnlyEmpty(files: seq<UploadFile>)
    ensures SpreadsheetsOnly(files) == [] <==> forall i :: 0 <= i < |files| ==> !IsSpreadsheet(files[i])
  {
    if |files| > 0 {
      var rest := files[1..];
      SpreadsheetsOnlyEmpty(rest);
      if forall i :: 0 <= i < |rest| ==> !IsSpreadsheet(rest[i]) {
        if !IsSpreadsheet(files[0]) {
          forall i | 0 <= i < |files|
            ensures !IsSpreadsheet(files[i])
          {
            if i > 0 {
              assert files[i] == rest[i - 1];
            }
          }
        }
      } else {
        var i :| 0 <= i < |rest| && IsSpreadsheet(rest[i]);
        assert files[i + 1] == rest[i];
      }
    }
  }

  /**
   * The filter works element by element in list order: filtering a
   * concatenation gives the filtered parts in the same order.
   */
  lemma {:induction false} SpreadsheetsOnlyAppend(a: seq<UploadFile>, b: seq<UploadFile>)
    ensures SpreadsheetsOnly(a + b) == SpreadsheetsOnly(a) + SpreadsheetsOnly(b)
  {
    if |a| == 0 {
      assert a + b == b;
    } else {
      assert (a + b)[0] == a[0];
      assert (a + b)[1..] == a[1..] + b;
      SpreadsheetsOnlyAppend(a[1..], b);
    }
  }

  /** A one-element list is kept exactly when its element passes. */
  lemma SpreadsheetsOnlySingle(x: UploadFile)
    ensures SpreadsheetsOnly([x]) == if IsSpreadsheet(x) then [x] else []
  {
    assert [x][1..] == [];
  }

  /** `files.filter((_, i) => i !== index)`: drop the entry at `index`, if there is one. */
  function WithoutIndex<T>(files: seq<T>, index: int): (rest: seq<T>)
    ensures 0 <= index < |files| ==> rest == files[..index] + files[index + 1..]
    ensures !(0 <= index < |files|) ==> rest == files
  {
    if |files| == 0 then []
    else
      assert files == [files[0]] + files[1..];
      (if index == 0 then [] else [files[0]]) + WithoutIndex(files[1..], index - 1)
  }

  // ---------------------------------------------------------------------------
  // The simulated upload response
  // ---------------------------------------------------------------------------

  /** How many rows the simulated upload produces. */
  const MockRowCount: nat := 15

  const Manufacturers: seq<string> := ["Murata", "TDK", "Vishay", "Kemet"]

  /**
   * The random draws behind one mock row: the part number, the quantity
   * before the `+ 1`, and the index into the manufacturer list.
   */
  datatype RowDraw = RowDraw(partNumber: nat, quantity: nat, manufacturer: nat)

  /** The ranges `Math.floor(Math.random() * k)` can take for each draw. */
  predicate ValidRowDraw(d: RowDraw)
  {
    d.partNumber < 1000000 && d.quantity < 100 && d.manufacturer < |Manufacturers|
  }

  predicate ValidRowDraws(draws: seq<RowDraw>)
  {
    |draws| == MockRowCount && forall i :: 0 <= i < |draws| ==> ValidRowDraw(draws[i])
  }

  /** The `i`-th mock row built from its draws. */
  function MockRow(i: nat, d: RowDraw): (row: ExcelRowData)
    requires ValidRowDraw(d)
    ensures row.id == "row-" + NatToDecimal(i) && !row.selected
    ensures 1 <= row.quantity <= 100 && row.manufacturer in Manufacturers
    ensures |row.partNumber| >= 2 && row.partNumber[0] == 'P'
  {
    ExcelRowData(
      "row-" + NatToDecimal(i),
      "P" + NatToDecimal(d.partNumber),
      "Electronic Component " + NatToDecimal(i),
      d.quantity + 1,
      Manufacturers[d.manufacturer],
      false)
  }

  /** The rows the simulated upload delivers, as a whole. */
  function MockRows(draws: seq<RowDraw>): (rows: seq<ExcelRowData>)
    requires ValidRowDraws(draws)
    ensures |rows| == MockRowCount
    ensures forall i :: 0 <= i < |rows| ==> rows[i].id == "row-" + NatToDecimal(i) && !rows[i].selected
  {
    seq(MockRowCount, i requires 0 <= i < MockRowCount => MockRow(i, draws[i]))
  }

  /** All ids of a row list are different. */
  predicate DistinctIds(rows: seq<ExcelRowData>)
  {
    forall i, j :: 0 <= i < j < |rows| ==> rows[i].id != rows[j].id
  }

  /**
   * The upload yields fifteen rows `row-0` .. `row-14`, all different, none
   * ticked, with quantities from 1 to 100 and a known manufacturer.
   */
  lemma MockRowsShape(draws: seq<RowDraw>)
    requires ValidRowDraws(draws)
    ensures var rows := MockRows(draws);
            && |rows| == 15
            && (forall i :: 0 <= i < 15 ==> rows[i].id == "row-" + NatToDecimal(i))
            && DistinctIds(rows)
            && (forall i :: 0 <= i < 15 ==> !rows[i].selected)
            && (forall i :: 0 <= i < 15 ==> 1 <= rows[i].quantity <= 100 && rows[i].manufacturer in Manufacturers)
  {
    var rows := MockRows(draws);
    forall i, j | 0 <= i < j < |rows|
      ensures rows[i].id != rows[j].id
    {
      DecimalInjective(i, j);
      if rows[i].id == rows[j].id {
        PrefixInjective("row-", NatToDecimal(i), NatToDecimal(j));
      }
    }
  }

  // ---------------------------------------------------------------------------
  // Row selection
  // ---------------------------------------------------------------------------

  /** Every row is ticked (`every(item => item.selected)`); true of an empty list. */
  predicate AllSelected(rows: seq<ExcelRowData>)
  {
    forall i :: 0 <= i < |rows| ==> rows[i].selected
  }

  /** At least one row is ticked (`some(item => item.selected)`). */
  predicate AnySelected(rows: seq<ExcelRowData>)
  {
    exists i :: 0 <= i < |rows| && rows[i].selected
  }

  /** The rows after ticking (or unticking) those with the given id. */
  function WithRowSelection(rows: seq<ExcelRowData>, id: string, selected: bool): (r: seq<ExcelRowData>)
    ensures |r| == |rows|
    ensures forall i :: 0 <= i < |rows| ==> r[i].(selected := rows[i].selected) == rows[i]
    ensures forall i :: 0 <= i < |rows| && rows[i].id == id ==> r[i].selected == selected
    ensures forall i :: 0 <= i < |rows| && rows[i].id != id ==> r[i] == rows[i]
  {
    seq(|rows|, i requires 0 <= i < |rows| => if rows[i].id == id then rows[i].(selected := selected) else rows[i])
  }

  /**
   * The toggle handler's own test: every row counts as ticked if it is the
   * toggled one and `selected` is set, or it was ticked already. It reads
   * the list as it was before the toggle.
   */
  predicate EveryAfterToggle(rows: seq<ExcelRowData>, id: string, selected: bool)
  {
    forall i :: 0 <= i < |rows| ==> if rows[i].id == id then selected else rows[i].selected
  }

  /** The handler's test on the old list is the AND of the flags of the new list, so there is no lag. */
  lemma EveryAfterToggleIsPostState(rows: seq<ExcelRowData>, id: string, selected: bool)
    ensures EveryAfterToggle(rows, id, selected) == AllSelected(WithRowSelection(rows, id, selected))
  {
  }

  /** Every row with the given flag. */
  function WithAllRows(rows: seq<ExcelRowData>, selected: bool): (r: seq<ExcelRowData>)
    ensures |r| == |rows|
    ensures forall i :: 0 <= i < |rows| ==> r[i] == rows[i].(selected := selected)
  {
    seq(|rows|, i requires 0 <= i < |rows| => rows[i].(selected := selected))
  }

  /** The ticked rows, in list order. */
  function SelectedItems(rows: seq<ExcelRowData>): (r: seq<ExcelRowData>)
    ensures forall i :: 0 <= i < |r| ==> r[i].selected && r[i] in rows
  {
    if |rows| == 0 then []
    else
      var rest := SelectedItems(rows[1..]);
      assert forall i :: 0 <= i < |rest| ==> rest[i] in rows;
      (if rows[0].selected then [rows[0]] else []) + rest
  }

  /** The filter keeps every ticked row as often as it occurs and no unticked one. */
  lemma {:induction false} SelectedItemsCounts(rows: seq<ExcelRowData>)
    ensures forall x :: multiset(SelectedItems(rows))[x] == if x.selected then multiset(rows)[x] else 0
  {
    if |rows| > 0 {
      var rest := rows[1..];
      SelectedItemsCounts(rest);
      var head := if rows[0].selected then [rows[0]] else [];
      assert rows == [rows[0]] + rest;
      assert multiset(rows) == multiset{rows[0]} + multiset(rest);
      assert multiset(SelectedItems(rows)) == multiset(head) + multiset(SelectedItems(rest));
      forall x
        ensures multiset(SelectedItems(rows))[x] == if x.selected then multiset(rows)[x] else 0
      {
        assert multiset(head)[x] == if x.selected then multiset{rows[0]}[x] else 0;
      }
    }
  }

  /** The filter is empty exactly when no row is ticked. */
  lemma {:induction false} SelectedItemsEmpty(rows: seq<ExcelRowData>)
    ensures SelectedItems(rows) == [] <==> !AnySelected(rows)
  {
    if |rows| > 0 {
      var rest := rows[1..];
      SelectedItemsEmpty(rest);
      if AnySelected(rows) && !rows[0].selected {
        var i :| 0 <= i < |rows| && rows[i].selected;
        assert rest[i - 1].selected;
      }
      if AnySelected(rest) {
        var i :| 0 <= i < |rest| && rest[i].selected;
        assert rows[i + 1].selected;
      }
    }
  }

  /** When every row is ticked the filter returns the list unchanged. */
  lemma {:induction false} SelectedItemsOfAllTicked(rows: seq<ExcelRowData>)
    requires AllSelected(rows)
    ensures SelectedItems(rows) == rows
  {
    if |rows| > 0 {
      assert AllSelected(rows[1..]);
      SelectedItemsOfAllTicked(rows[1..]);
      assert rows == [rows[0]] + rows[1..];
    }
  }

  /**
   * The filter works element by element in list order: filtering a
   * concatenation gives the filtered parts in the same order.
   */
  lemma {:induction false} SelectedItemsAppend(a: seq<ExcelRowData>, b: seq<ExcelRowData>)
    ensures SelectedItems(a + b) == SelectedItems(a) + SelectedItems(b)
  {
    if |a| == 0 {
      assert a + b == b;
    } else {
      assert (a + b)[0] == a[0];
      assert (a + b)[1..] == a[1..] + b;
      SelectedItemsAppend(a[1..], b);
    }
  }

  /** A one-element list is kept exactly when its element passes. */
  lemma SelectedItemsSingle(x: ExcelRowData)
    ensures SelectedItems([x]) == if x.selected then [x] else []
  {
    assert [x][1..] == [];
  }

  /** Picking the ticked rows keeps ids distinct. */
  lemma {:induction false} SelectedItemsDistinct(rows: seq<ExcelRowData>)
    requires DistinctIds(rows)
    ensures DistinctIds(SelectedItems(rows))
  {
    if |rows| > 0 {
      var rest := SelectedItems(rows[1..]);
      assert DistinctIds(rows[1..]) by {
        forall i, j | 0 <= i < j < |rows[1..]|
          ensures rows[1..][i].id != rows[1..][j].id
        {
          assert rows[1..][i] == rows[i + 1] && rows[1..][j] == rows[j + 1];
        }
      }
      SelectedItemsDistinct(rows[1..]);
      forall k | 0 <= k < |rest|
        ensures rest[k].id != rows[0].id
      {
        var m :| 0 <= m < |rows[1..]| && rows[1..][m] == rest[k];
        assert rows[m + 1] == rest[k];
      }
    }
  }

  // ---------------------------------------------------------------------------
  // The intake form
  // ---------------------------------------------------------------------------

  /** The state of the spreadsheet intake form. */
  class ExcelUploadForm {
    var uploadedFiles: seq<UploadFile>
    var isUploading: bool
    var uploadComplete: bool
    var uploadedData: seq<ExcelRowData>
    var selectAll: bool

    constructor ()
      ensures uploadedFiles == [] && uploadedData == []
      ensures !isUploading && !uploadComplete && !selectAll
    {
      uploadedFiles := [];
      isUploading := false;
      uploadComplete := false;
      uploadedData := [];
      selectAll := false;
    }

    /** The header checkbox agrees with the rows. */
    predicate SelectAllInSync()
      reads this
    {
      selectAll == AllSelected(uploadedData)
    }

    /** The "Upload and Read Files" button is disabled. */
    predicate UploadDisabled()
      reads this
      ensures !UploadDisabled() ==> |uploadedFiles| > 0 && !isUploading
    {
      |uploadedFiles| == 0 || isUploading
    }

    /** The "Search Selected Components" button is disabled. */
    predicate SearchDisabled()
      reads this
      ensures SearchDisabled() <==> SelectedItems(uploadedData) == []
    {
      SelectedItemsEmpty(uploadedData);
      !AnySelected(uploadedData)
    }

    /** Files chosen in the file picker are appended; a non-empty choice clears the previous upload. */
    method HandleFileChange(newFiles: seq<UploadFile>)
      modifies this`uploadedFiles, this`uploadComplete, this`uploadedData
      ensures |newFiles| > 0 ==> uploadedFiles == old(uploadedFiles) + newFiles
                                 && !uploadComplete && uploadedData == []
      ensures |newFiles| == 0 ==> uploadedFiles == old(uploadedFiles)
                                  && uploadComplete == old(uploadComplete) && uploadedData == old(uploadedData)
    {
      if |newFiles| > 0 {
        uploadedFiles := uploadedFiles + newFiles;
        uploadComplete := false;
        uploadedData := [];
      }
    }

    /** Removing the file at `index` keeps the others in order and clears the previous upload. */
    method HandleRemoveFile(index: int)
      modifies this`uploadedFiles, this`uploadComplete, this`uploadedData
      ensures uploadedFiles == WithoutIndex(old(uploadedFiles), index)
      ensures !uploadComplete && uploadedData == []
    {
      uploadedFiles := WithoutIndex(uploadedFiles, index);
      uploadComplete := false;
      uploadedData := [];
    }

    /** Dropped files pass the MIME filter; if any pass they are appended and the previous upload is cleared. */
    method HandleDrop(dropped: seq<UploadFile>)
      modifies this`uploadedFiles, this`uploadComplete, this`uploadedData
      ensures SpreadsheetsOnly(dropped) != [] ==>
                uploadedFiles == old(uploadedFiles) + SpreadsheetsOnly(dropped)
                && !uploadComplete && uploadedData == []
      ensures SpreadsheetsOnly(dropped) == [] ==>
                uploadedFiles == old(uploadedFiles)
                && uploadComplete == old(uploadComplete) && uploadedData == old(uploadedData)
    {
      if |dropped| > 0 {
        var newFiles := SpreadsheetsOnly(dropped);
        if |newFiles| > 0 {
          uploadedFiles := uploadedFiles + newFiles;
          uploadComplete := false;
          uploadedData := [];
        }
      }
    }

    /**
     * The synchronous part of an upload: nothing without files, otherwise the
     * form enters the uploading state. A click on the enabled button disables
     * it until the upload completes.
     */
    method HandleUpload()
      modifies this`isUploading
      ensures |uploadedFiles| == 0 ==> isUploading == old(isUploading)
      ensures |uploadedFiles| > 0 ==> isUploading
      ensures !old(UploadDisabled()) ==> UploadDisabled()
    {
      if |uploadedFiles| == 0 {
        return;
      }
      isUploading := true;
    }

    /**
     * The delayed part of an upload: fifteen rows are generated, one per
     * loop step, and replace the preview; the form leaves the uploading state.
     */
    method CompleteUpload(draws: seq<RowDraw>)
      requires ValidRowDraws(draws)
      modifies this`uploadedData, this`isUploading, this`uploadComplete
      ensures uploadedData == MockRows(draws)
      ensures uploadComplete && !isUploading
    {
      var mockData: seq<ExcelRowData> := [];
      for i := 0 to MockRowCount
        invariant |mockData| == i
        invariant forall k :: 0 <= k < i ==> mockData[k] == MockRow(k, draws[k])
      {
        mockData := mockData + [MockRow(i, draws[i])];
      }
      uploadedData := mockData;
      isUploading := false;
      uploadComplete := true;
    }

    /** "Upload Different Files" returns to the file list and drops the preview. */
    method UploadDifferentFiles()
      modifies this`uploadComplete, this`uploadedData
      ensures !uploadComplete && uploadedData == []
    {
      uploadComplete := false;
      uploadedData := [];
    }

    /** Ticking one row; the header checkbox becomes the AND of all rows after the change. */
    method HandleToggleSelect(id: string, selected: bool)
      modifies this`uploadedData, this`selectAll
      ensures uploadedData == WithRowSelection(old(uploadedData), id, selected)
      ensures SelectAllInSync()
    {
      var allSelected := EveryAfterToggle(uploadedData, id, selected);
      EveryAfterToggleIsPostState(uploadedData, id, selected);
      uploadedData := WithRowSelection(uploadedData, id, selected);
      selectAll := allSelected;
    }

    /** The header checkbox sets itself and every row to `checked`. */
    method HandleToggleSelectAll(checked: bool)
      modifies this`uploadedData, this`selectAll
      ensures selectAll == checked
      ensures uploadedData == WithAllRows(old(uploadedData), checked)
      ensures |uploadedData| > 0 ==> SelectAllInSync()
    {
      selectAll := checked;
      uploadedData := WithAllRows(uploadedData, checked);
      assert |uploadedData| > 0 ==> uploadedData[0].selected == checked;
    }

    /** The rows handed to the search callback, or `None` when nothing is ticked and no search starts. */
    method HandleSearch() returns (submitted: Option<seq<ExcelRowData>>)
      ensures submitted.None? <==> SearchDisabled()
      ensures submitted.Some? ==> submitted.value == SelectedItems(uploadedData) && submitted.value != []
    {
      var selectedItems := SelectedItems(uploadedData);
      SelectedItemsEmpty(uploadedData);
      if |selectedItems| > 0 {
        submitted := Some(selectedItems);
      } else {
        submitted := None;
      }
    }
  }

  /**
   * The header checkbox is only recomputed by the two toggle handlers: after
   * ticking everything, a fresh upload leaves it checked over rows that are
   * all unticked.
   */
  method StaleSelectAllAfterReupload(draws: seq<RowDraw>) returns (headerChecked: bool, everyRowTicked: bool)
    requires ValidRowDraws(draws)
    ensures headerChecked && !everyRowTicked
  {
    var form := new ExcelUploadForm();
    form.HandleFileChange([UploadFile("bom.csv", CsvMime)]);
    form.HandleUpload();
    form.CompleteUpload(draws);
    form.HandleToggleSelectAll(true);
    assert form.selectAll && form.SelectAllInSync();
    form.UploadDifferentFiles();
    form.HandleUpload();
    form.CompleteUpload(draws);
    MockRowsShape(draws);
    assert !form.uploadedData[0].selected;
    headerChecked, everyRowTicked := form.selectAll, AllSelected(form.uploadedData);
  }
}
