# Component finder front end: result list, pagination and spreadsheet intake

This project models the logic behind the views of a component-matching web
front end. An operator submits a search in one of three ways: rows ticked in an
uploaded bill of materials, a typed part number, or a camera image. The page
then holds the matched components as a result list. The operator pages through
it ten rows at a time, ticks rows, exports the whole list as CSV or JSON, and
opens an email dialog with the ticked rows.

The model has one Dafny module per core source file, plus three small support
modules:

- `Utils` (`src/lib/utils.ts`): the category badge lookup, the CSV text, the
  empty-input guard of both exporters, and the "Showing X to Y of Z results"
  line.
- `ResultsSection` (`src/components/ResultsSection.tsx`): the page count and
  page slices, the five-slot page-number window with its ellipses, the
  no-match and spec-label cell rules, and the view's own state (`currentPage`,
  the header checkbox) as the class `ResultsView`.
- `Home` (`src/pages/Home.tsx`): the simulated search response and the page
  state (`activeTab`, `results`, `isEmailModalOpen`) as the class `HomePage`.
  Its handlers replace, tick and filter the result list.
- `ExcelUpload` (`src/components/ExcelUpload.tsx`): the spreadsheet intake
  form as the class `ExcelUploadForm`. It covers the file list, the simulated
  upload of fifteen rows, the row and header checkboxes, and the search guard.
- `Types` (`src/lib/types.ts`) holds the shared records. `Text` holds
  `join`/`split` on one separator character and decimal rendering of
  integers. `Wrappers` holds `Option`.

Each React state hook becomes a field of a class. Each handler becomes a
method that changes only the fields the handler sets, so each `modifies`
clause is the handler's frame. The `map`/`filter` expressions become
functions with lemmas about them. The upload's `for` loop and the mock
search's `forEach`/`push` loop become methods with loop invariants, proved
equal to a function that describes the whole result.

Some behaviours of the code are easy to mistake for a tidier design. The
model keeps them as written:

- Switching the intake tab sets only the active tab. The result list and its
  flags are kept (`Home.HomePage.SetActiveTab`).
- Starting a search does not empty the list. The list is replaced only when
  the response arrives (`Home.HomePage.OnSearchSuccess`).
- The result view's header checkbox is separate stored state. It changes only
  when it is clicked. It is not recomputed from row toggles
  (`ResultsSection.HeaderStaysCheckedAfterUntick`). It is not reset by a new
  search either, because `Home.HomePage.OnSearchSuccess` may change only the
  page's result list.
- The intake form's header checkbox is recomputed only by the two toggle
  handlers, so it can be stale after a new upload
  (`ExcelUpload.StaleSelectAllAfterReupload`).
- `currentPage` survives a result replacement. After a shorter search it can
  lie past the last page. The view then shows no rows and a range like
  "Showing 21 to 15 of 15 results" (`ResultsSection.StalePageExample`).

## Model

| member | source | states |
|---|---|---|
| Utils.CategoryClass | src/lib/utils.ts:11-21 | the neutral class is returned exactly for strings that are not a key of the table; a key gets its table value |
| Utils.CategoryClassTable | src/lib/utils.ts:12-20 | the five plural names map to their five classes and every other string gets `bg-gray-100 text-gray-800` |
| Utils.SingularLabelsFallBack | src/lib/utils.ts:12-20 | matching is exact and case-sensitive: "Resistor", "Capacitor", "Inductor", "resistors" get the fallback |
| Utils.CsvLines | src/lib/utils.ts:27-36 | one line more than rows: the header line first, then row i's four cells joined by commas at line i+1 |
| Utils.ExportCsv | src/lib/utils.ts:24-38 | no text at all exactly when the list is empty (the early return) |
| Utils.CsvHeaderLine | src/lib/utils.ts:27-29 | the header line is exactly `Product Number,Competitor,Category,Alternative` |
| Utils.CsvLineCount | src/lib/utils.ts:27-38 | with no newline in any cell, the text splits on newlines into rows + 1 lines, the first being the header |
| Utils.CsvRoundTrip | src/lib/utils.ts:27-38 | with no comma or newline in any cell, splitting on newlines then commas gives back the header and every row's four cells in order |
| Utils.CsvIgnoresSelection | src/lib/utils.ts:30-35 | only the four cells are exported: lists that agree on them give the same text |
| Utils.ExportJson | src/lib/utils.ts:44-47 | nothing is serialized exactly when the list is empty; otherwise the whole list, unchanged |
| Utils.PaginationRange | src/lib/utils.ts:54-55 | start is one past the rows of the earlier pages; end is the smaller of the page's last position and the total |
| Utils.PaginationRangeBounds | src/lib/utils.ts:53-57 | on an existing page 1 <= start <= end <= total, and end - start + 1 is a full page or the last page's remainder |
| Utils.PaginationTextReadsBack | src/lib/utils.ts:53-57 | the line's words are "Showing", start, "to", end, "of", total, "results", and the numbers read back as decimals |
| Text.SplitJoin | src/lib/utils.ts:38 | joining parts that avoid the separator and splitting again returns the parts |
| Text.DecimalRoundTrip | src/lib/utils.ts:56 | the decimal rendering of a number reads back as the number |
| ExcelUpload.SpreadsheetsOnly | src/components/ExcelUpload.tsx:54-57 | every kept file has the xlsx or CSV MIME type and was dropped |
| ExcelUpload.SpreadsheetsOnlyCounts | src/components/ExcelUpload.tsx:54-57 | each spreadsheet is kept as often as it was dropped, every other file never |
| ExcelUpload.SpreadsheetsOnlyEmpty | src/components/ExcelUpload.tsx:54-59 | nothing is kept exactly when no dropped file is a spreadsheet |
| ExcelUpload.SpreadsheetsOnlyAppend | src/components/ExcelUpload.tsx:54-57 | the drop filter keeps drop order: filtering a concatenation concatenates the filtered parts |
| ExcelUpload.SpreadsheetsOnlySingle | src/components/ExcelUpload.tsx:54-57 | a single dropped file is kept exactly when it is a spreadsheet |
| ExcelUpload.WithoutIndex | src/components/ExcelUpload.tsx:38 | the entry at the index is removed and the others keep their order; an index out of range changes nothing |
| ExcelUpload.MockRow | src/components/ExcelUpload.tsx:81-88 | row i has id `row-i`, a `P` part number, quantity 1..100, a listed manufacturer, and is unticked |
| ExcelUpload.MockRows | src/components/ExcelUpload.tsx:79-89 | fifteen rows, row i with id `row-i`, none ticked |
| ExcelUpload.MockRowsShape | src/components/ExcelUpload.tsx:79-89 | fifteen rows `row-0`..`row-14` with distinct ids, none ticked, quantity 1..100, a known manufacturer |
| ExcelUpload.WithRowSelection | src/components/ExcelUpload.tsx:98-102 | rows with the id get the flag; every other row and every other field is unchanged |
| ExcelUpload.EveryAfterToggleIsPostState | src/components/ExcelUpload.tsx:104-108 | the handler's `every` over the old list equals "every row ticked" in the new list |
| ExcelUpload.WithAllRows | src/components/ExcelUpload.tsx:113 | every row gets the flag, nothing else changes |
| ExcelUpload.SelectedItems | src/components/ExcelUpload.tsx:117 | every row returned is ticked and comes from the list |
| ExcelUpload.SelectedItemsCounts | src/components/ExcelUpload.tsx:117 | each ticked row is kept as often as it occurs, unticked ones never |
| ExcelUpload.SelectedItemsEmpty | src/components/ExcelUpload.tsx:117-118 | the selection is empty exactly when no row is ticked |
| ExcelUpload.SelectedItemsOfAllTicked | src/components/ExcelUpload.tsx:117 | when every row is ticked the whole list is submitted, in order |
| ExcelUpload.SelectedItemsAppend | src/components/ExcelUpload.tsx:117 | the filter keeps list order: filtering a concatenation concatenates the filtered parts |
| ExcelUpload.SelectedItemsSingle | src/components/ExcelUpload.tsx:117 | a one-row list is kept exactly when its row is ticked |
| ExcelUpload.SelectedItemsDistinct | src/components/ExcelUpload.tsx:117 | picking ticked rows keeps ids distinct |
| ExcelUpload.ExcelUploadForm.constructor | src/components/ExcelUpload.tsx:20-24 | no files, no rows, not uploading, not complete, header unchecked |
| ExcelUpload.ExcelUploadForm.UploadDisabled | src/components/ExcelUpload.tsx:179 | an enabled upload button means there are files and no upload is running |
| ExcelUpload.ExcelUploadForm.SearchDisabled | src/components/ExcelUpload.tsx:253 | the search button is disabled exactly when the search would submit no rows |
| ExcelUpload.ExcelUploadForm.HandleFileChange | src/components/ExcelUpload.tsx:27-35 | a non-empty choice is appended after the existing files and clears the preview; an empty one changes nothing |
| ExcelUpload.ExcelUploadForm.HandleRemoveFile | src/components/ExcelUpload.tsx:37-42 | the file list loses the entry at the index; the preview is cleared |
| ExcelUpload.ExcelUploadForm.HandleDrop | src/components/ExcelUpload.tsx:49-66 | the spreadsheets among the dropped files are appended and the preview cleared; with none, nothing changes |
| ExcelUpload.ExcelUploadForm.HandleUpload | src/components/ExcelUpload.tsx:68-71 | nothing without files; otherwise the form is uploading, and a click on the enabled button leaves it disabled |
| ExcelUpload.ExcelUploadForm.CompleteUpload | src/components/ExcelUpload.tsx:77-94 | the loop builds exactly the fifteen mock rows; the form is complete and no longer uploading |
| ExcelUpload.ExcelUploadForm.UploadDifferentFiles | src/components/ExcelUpload.tsx:243-246 | back to the file list with no preview rows; files and header untouched |
| ExcelUpload.ExcelUploadForm.HandleToggleSelect | src/components/ExcelUpload.tsx:97-109 | the row flags change by id only, and the header equals "every row ticked" afterwards |
| ExcelUpload.ExcelUploadForm.HandleToggleSelectAll | src/components/ExcelUpload.tsx:111-114 | header and every row take the value; on a non-empty list the header agrees with the rows |
| ExcelUpload.ExcelUploadForm.HandleSearch | src/components/ExcelUpload.tsx:116-121 | a search starts exactly when the search button is enabled (some row ticked), with the ticked rows in order |
| ExcelUpload.StaleSelectAllAfterReupload | src/components/ExcelUpload.tsx:91-93 | after ticking all and uploading again the header is checked while no row is |
| Home.GeneratedRow | src/pages/Home.tsx:75-81 | the added row copies the submitted row's id (prefixed `generated-`), part number and manufacturer, with a known category and a `WE-` alternative |
| Home.ExcelResponse | src/pages/Home.tsx:70-82 | the five fixed rows come first, followed by max(0, k - 3) added rows |
| Home.ExcelResponseAt | src/pages/Home.tsx:70-82 | response position j < 5 is fixed row j; position j >= 5 is generated from submitted row j - 2 |
| Home.ExcelMockSearch | src/pages/Home.tsx:70-83 | the `forEach`/`push` loop builds exactly the fixed rows plus one generated row per submitted row from the fourth on |
| Home.MockSearch | src/pages/Home.tsx:68-87 | a spreadsheet search gets the spreadsheet response, the other two workflows the five fixed rows |
| Home.ExcelResponseShape | src/pages/Home.tsx:70-82 | length 5 + max(0, k - 3); fixed rows first; each added row copies id (prefixed `generated-`), part number and manufacturer, in order |
| Home.ExcelResponseIdsDistinct | src/pages/Home.tsx:18-82 | with distinct submitted ids, all response ids are distinct |
| Home.SearchFromUniqueRowsIdsDistinct | src/pages/Home.tsx:70-82 | ticking rows of a list with unique ids and searching gives unique result ids |
| Home.ResponseCategoriesKnown | src/pages/Home.tsx:79 | every simulated category has its own badge class |
| Home.WithAllSelected | src/pages/Home.tsx:162 | every row gets the flag, nothing else changes |
| Home.WithSelection | src/pages/Home.tsx:153-159 | rows with the id get the flag; every other row and every other field is unchanged |
| Home.SelectedResults | src/pages/Home.tsx:174 | every row returned is ticked and comes from the list |
| Home.SelectedResultsCounts | src/pages/Home.tsx:174 | each ticked row is kept as often as it occurs, unticked ones never |
| Home.SelectedResultsEmpty | src/pages/Home.tsx:174-176 | the selection is empty exactly when no row is ticked |
| Home.SelectedResultsAppend | src/pages/Home.tsx:174 | the filter keeps list order: filtering a concatenation concatenates the filtered parts |
| Home.SelectedResultsSingle | src/pages/Home.tsx:174 | a one-row list is kept exactly when its row is ticked |
| Home.SelectedResultsOfAll | src/pages/Home.tsx:174 | after ticking all, the selection is the whole list in order; after unticking all, it is empty |
| Home.ExportIgnoresSelection | src/pages/Home.tsx:165-171 | ticking rows never changes the CSV text |
| Home.HomePage.constructor | src/pages/Home.tsx:58-60 | tab `excel`, empty list, dialog closed |
| Home.HomePage.OnSearchSuccess | src/pages/Home.tsx:89-90 | the list is replaced by the response, same rows in the same order, none ticked |
| Home.HomePage.HandleExcelSearch | src/pages/Home.tsx:130-135 | the list becomes the spreadsheet response, unticked |
| Home.HomePage.HandleManualSearch | src/pages/Home.tsx:137-143 | the list becomes the five fixed rows, unticked |
| Home.HomePage.HandleCameraSearch | src/pages/Home.tsx:145-150 | the list becomes the five fixed rows, unticked |
| Home.HomePage.HandleToggleSelect | src/pages/Home.tsx:153-159 | the new list is the old one with the id's rows set |
| Home.HomePage.HandleToggleSelectAll | src/pages/Home.tsx:161-163 | every row of the whole list, not only the visible page, takes the value |
| Home.HomePage.HandleExportCsv | src/pages/Home.tsx:165-167 | the whole list is exported; nothing when it is empty |
| Home.HomePage.HandleExportJson | src/pages/Home.tsx:169-171 | the whole list, ticked or not, is the payload; nothing when it is empty |
| Home.HomePage.ModalComponents | src/pages/Home.tsx:235 | the dialog gets every ticked row as often as it occurs and no unticked one, and none exactly when nothing is ticked |
| Home.HomePage.HandleEmailResults | src/pages/Home.tsx:173-186 | the dialog opens when some row is ticked; otherwise nothing changes |
| Home.HomePage.CloseEmailModal | src/pages/Home.tsx:234 | the dialog is closed |
| Home.HomePage.SetActiveTab | src/pages/Home.tsx:205 | only the tab changes; the result list and its flags stay |
| ResultsSection.TotalPages | src/components/ResultsSection.tsx:60 | enough pages for every row and no empty page at the end; zero pages exactly for no rows |
| ResultsSection.SliceIndex | src/components/ResultsSection.tsx:63 | `slice` reads an index inside the list as is, one past the end as the length, a negative one from the end, and one before the start as 0 |
| ResultsSection.Slice | src/components/ResultsSection.tsx:63 | the slice is the run of elements between the two read indices, empty when they cross |
| ResultsSection.PageItems | src/components/ResultsSection.tsx:61-63 | any page shows at most ten rows, all taken from the list |
| ResultsSection.PageItemsOfExistingPage | src/components/ResultsSection.tsx:61-63 | page c shows rows (c-1)*10 up to min(10c, n), between one and ten of them |
| ResultsSection.PageItemsPastLastPage | src/components/ResultsSection.tsx:61-63 | a page past the last one shows no rows |
| ResultsSection.PagesThroughPrefix | src/components/ResultsSection.tsx:61-63 | pages 1..k together are the first min(10k, n) rows |
| ResultsSection.PagesPartition | src/components/ResultsSection.tsx:60-63 | the pages, read in order, give back every row once, in order |
| ResultsSection.PaginationTextMatchesPage | src/components/ResultsSection.tsx:249 | the numbers of the pagination line frame exactly the rows shown |
| ResultsSection.StalePageExample | src/components/ResultsSection.tsx:249 | 15 rows on page 3 read "21 to 15" over an empty page |
| ResultsSection.PaginationShownPages | src/components/ResultsSection.tsx:246 | the pagination bar is shown exactly when there are at least two pages |
| ResultsSection.PageNumber | src/components/ResultsSection.tsx:266-279 | every computed number at a shown position names a page between 1 and the last |
| ResultsSection.ShowsEllipsis | src/components/ResultsSection.tsx:282-283 | an ellipsis appears only at positions 1 and 3, and only beyond five pages |
| ResultsSection.SlotAt | src/components/ResultsSection.tsx:264-307 | a slot is an ellipsis keyed by its position (1 or 3, beyond five pages) or a button for the computed page |
| ResultsSection.PageWindow | src/components/ResultsSection.tsx:264 | the window has min(totalPages, 5) slots |
| ResultsSection.SmallWindow | src/components/ResultsSection.tsx:264-268 | up to five pages the slots are pages 1..T, no ellipsis |
| ResultsSection.PageNumbersIncrease | src/components/ResultsSection.tsx:269-279 | beyond five pages the numbers run strictly upwards from 1 to T |
| ResultsSection.LargeWindow | src/components/ResultsSection.tsx:269-295 | beyond five pages: first slot page 1, last slot page T, middle a button, only slots 1 and 3 can be ellipses |
| ResultsSection.EllipsisNeedsManyPages | src/components/ResultsSection.tsx:282-283 | no ellipsis unless there are more than five pages |
| ResultsSection.WindowButtonsInRange | src/components/ResultsSection.tsx:264-279 | every button names a page between 1 and T |
| ResultsSection.CurrentPageInWindow | src/components/ResultsSection.tsx:264-306 | an existing current page always has its own button |
| ResultsSection.StalePageNotInWindow | src/components/ResultsSection.tsx:264-279 | a current page past the last has no button |
| ResultsSection.TwelvePageWindows | src/components/ResultsSection.tsx:264-308 | twelve pages give 1 2 3 … 12, 1 … 6 … 12 and 1 … 10 11 12 on pages 1, 6 and 12 |
| ResultsSection.AlternativeCell | src/components/ResultsSection.tsx:175 | "No matched!" exactly when the alternative is empty, the alternative otherwise |
| ResultsSection.ReasonCell | src/components/ResultsSection.tsx:176 | "-" exactly when the alternative is empty, the reason otherwise |
| ResultsSection.CategoryBadge | src/components/ResultsSection.tsx:146 | the neutral badge exactly for types the table does not know |
| ResultsSection.SpecLabel | src/components/ResultsSection.tsx:160 | every underscore becomes a space, every other character stays, length kept |
| ResultsSection.SpecLabelClean | src/components/ResultsSection.tsx:160 | a label has no underscore and relabelling it changes nothing |
| ResultsSection.SpecPanel | src/components/ResultsSection.tsx:159-170 | one labelled line per spec entry in order, or the "no specifications" line when the row has no spec object |
| ResultsSection.EmptySpecsShowNothing | src/components/ResultsSection.tsx:159-170 | an empty spec object shows neither entries nor the "no specifications" line |
| ResultsSection.ResultsView.constructor | src/components/ResultsSection.tsx:34-35 | header unchecked, page 1 |
| ResultsSection.ResultsView.CurrentItems | src/components/ResultsSection.tsx:63 | at most ten rows; at least one on an existing page; none on a stale page past the last |
| ResultsSection.ResultsView.PreviousDisabled | src/components/ResultsSection.tsx:257 | a disabled Previous button has no earlier page to go to |
| ResultsSection.ResultsView.NextDisabled | src/components/ResultsSection.tsx:314 | a disabled Next button has no later page to go to |
| ResultsSection.ResultsView.NavigationButtons | src/components/ResultsSection.tsx:253-314 | on an existing page, Previous is disabled exactly on page 1 and Next exactly when no rows follow; on a stale page Next stays enabled over no rows |
| ResultsSection.ResultsView.GoToPage | src/components/ResultsSection.tsx:65-69 | the page changes exactly when the target is a page of the list; otherwise nothing changes |
| ResultsSection.ResultsView.Previous | src/components/ResultsSection.tsx:253-257 | it moves back one exactly when the page before exists (also from a stale page just past the last); otherwise, and always on page 1, it does nothing |
| ResultsSection.ResultsView.Next | src/components/ResultsSection.tsx:310-314 | before the last page it moves on one; otherwise it does nothing |
| ResultsSection.ResultsView.HandleSelectAll | src/components/ResultsSection.tsx:54-57 | the header takes the value and every row of the page's list takes it too |
| ResultsSection.ResultsView.HandleRowCheckbox | src/components/ResultsSection.tsx:140 | the row's flag changes by id; the header checkbox is not touched |
| ResultsSection.HeaderStaysCheckedAfterUntick | src/components/ResultsSection.tsx:118-140 | after checking the header and unticking one row, the header stays checked over a list that is not all ticked |

## Left out

- The file download: `Blob`, `saveAs` and the date-stamped file name are browser I/O. The exact text of `JSON.stringify(data, null, 2)` comes from a library serializer, so `Utils.ExportJson` stops at the payload handed to it.
- Asynchrony: `useMutation`, `isPending`, the loading view, the `setTimeout` delays, toasts, `console.log` and the `onError` paths are not modelled. Every handler is one atomic state change. The upload is two changes: `HandleUpload` and `CompleteUpload`. A search is the request followed at once by its success.
- The email send, whose transport is simulated by a timer, is left out with the rest of the asynchrony.
- `Math.random`: each random value is a parameter constrained to the range `Math.floor(Math.random() * k)` can take. Only the deterministic structure of the mock data (ids, lengths, order, copied fields) is stated.
- `categoryMap[category]` on an inherited property name such as "constructor" returns a prototype member in the source. The model's table is a finite map of the five keys, so such names get the fallback class.
- Presentation: JSX, CSS classes, `cn`, the table/card `viewMode` toggle and the "Found N matching components" heading.
- The card view shows the alternative and the reason verbatim, without the no-match rule. Only the table view's cells are modelled.
- The loading and empty-list early returns of the result view are not modelled as rendering. Pages are computed for any list.
- The camera capture, header, footer, tab bar, manual input and email dialog components are not part of this model. Their logic is device access, page chrome, or a one-line non-empty input guard.
- Files are known only by name and MIME type. `File` objects, `FileList` and drag events are not modelled.
- The result view reads snake_case fields of a row type that the shared type file does not define. `ResultsSection.ResultRowData` models that row on its own and is not tied to `Types.ComponentResult`.
- Switching away from the spreadsheet tab unmounts the intake form and loses its state. The model keeps one form object per intake session.
- React batches state updates, and the handlers read the values captured at render time. The model applies each update in order. That is only visible where a handler reads a value it has just set, and the toggle handler's read of the old list is modelled as written (`ExcelUpload.EveryAfterToggleIsPostState`).
