/**
 * The result view: ten rows per page, a window of at most five page
 * buttons with ellipses, previous/next buttons, the cell texts of a row,
 * and the header checkbox that forwards to the page's select-all handler.
 */
module ResultsSection {
  import opened Wrappers
  import Utils
  import Home

  // ---------------------------------------------------------------------------
  // Pages
  // ---------------------------------------------------------------------------

  const ItemsPerPage: nat := 10

  /** At most this many page buttons are shown. */
  const WindowSize: nat := 5

  /** `Math.ceil(count / 10)`: enough pages for every row, and no empty page at the end. */
  function TotalPages(count: nat): (pages: nat)
    ensures count <= pages * ItemsPerPage
    ensures count == 0 <==> pages == 0
    ensures count > 0 ==> (pages - 1) * ItemsPerPage < count
  {
    Utils.CeilDiv(count, ItemsPerPage)
  }

  /** How `Array.prototype.slice` reads an index: negative ones count from the end, all are clamped. */
  function SliceIndex(k: int, length: nat): (r: nat)
    ensures r <= length
    ensures 0 <= k <= length ==> r == k
    ensures k > length ==> r == length
    ensures k < 0 && length + k >= 0 ==> r == length + k
    ensures length + k < 0 ==> r == 0
  {
    if k < 0 then (if length + k < 0 then 0 else length + k)
    else if k > length then length
    else k
  }

  /** `s.slice(from, to)`: the run of elements between the two read indices, empty when they cross. */
  function Slice<T>(s: seq<T>, from: int, to: int): (r: seq<T>)
    ensures var a, b := SliceIndex(from, |s|), SliceIndex(to, |s|);
            && |r| == (if a < b then b - a else 0)
            && forall i :: 0 <= i < |r| ==> r[i] == s[a + i]
  {
    var a, b := SliceIndex(from, |s|), SliceIndex(to, |s|);
    if a < b then s[a..b] else []
  }

  /** The rows shown for `currentPage`: `results.slice(currentPage * 10 - 10, currentPage * 10)`. */
  function PageItems<T>(results: seq<T>, currentPage: int): (items: seq<T>)
    ensures |items| <= ItemsPerPage
    ensures forall i :: 0 <= i < |items| ==> items[i] in results
  {
    var indexOfLastItem := currentPage * ItemsPerPage;
    Slice(results, indexOfLastItem - ItemsPerPage, indexOfLastItem)
  }

  /**
   * An existing page shows rows (c - 1) * 10 up to min(c * 10, n), in list
   * order: a full page, or the remainder on the last page, never empty.
   */
  lemma PageItemsOfExistingPage<T>(results: seq<T>, currentPage: int)
    requires 1 <= currentPage <= TotalPages(|results|)
    ensures var last := if currentPage * ItemsPerPage < |results| then currentPage * ItemsPerPage else |results|;
            && (currentPage - 1) * ItemsPerPage < last
            && PageItems(results, currentPage) == results[(currentPage - 1) * ItemsPerPage..last]
            && 1 <= |PageItems(results, currentPage)| <= ItemsPerPage
  {
  }

  /** The page number is kept when the list is replaced: past the last page the view shows no rows at all. */
  lemma PageItemsPastLastPage<T>(results: seq<T>, currentPage: int)
    requires currentPage > TotalPages(|results|)
    ensures PageItems(results, currentPage) == []
  {
  }

  /** The rows of pages 1 .. k, one page after another. */
  function PagesThrough<T>(results: seq<T>, k: nat): seq<T>
  {
    if k == 0 then [] else PagesThrough(results, k - 1) + PageItems(results, k)
  }

  /** Pages 1 .. k together are the first min(10 k, n) rows. */
  lemma {:induction false} PagesThroughPrefix<T>(results: seq<T>, k: nat)
    requires k <= TotalPages(|results|)
    ensures PagesThrough(results, k) == results[..if k * ItemsPerPage < |results| then k * ItemsPerPage else |results|]
  {
    if k > 0 {
      PagesThroughPrefix(results, k - 1);
      PageItemsOfExistingPage(results, k);
      var a := (k - 1) * ItemsPerPage;
      var b := if k * ItemsPerPage < |results| then k * ItemsPerPage else |results|;
      assert results[..a] + results[a..b] == results[..b];
    }
  }

  /** The pages partition the list: read one after another, they give back every row in order, once. */
  lemma PagesPartition<T>(results: seq<T>)
    ensures PagesThrough(results, TotalPages(|results|)) == results
  {
    PagesThroughPrefix(results, TotalPages(|results|));
  }

  /** The numbers of "Showing X to Y of Z results" frame exactly the rows of an existing page. */
  lemma PaginationTextMatchesPage<T>(results: seq<T>, currentPage: int)
    requires 1 <= currentPage <= TotalPages(|results|)
    ensures var r := Utils.PaginationRange(currentPage, ItemsPerPage, |results|);
            && 1 <= r.start <= r.end <= |results|
            && r.end - r.start + 1 == |PageItems(results, currentPage)|
            && PageItems(results, currentPage) == results[r.start - 1..r.end]
  {
    PageItemsOfExistingPage(results, currentPage);
  }

  /** A stale page over a shorter list: 15 rows on page 3 read "Showing 21 to 15 of 15 results" over no rows. */
  lemma StalePageExample<T>(results: seq<T>)
    requires |results| == 15
    ensures Utils.PaginationRange(3, ItemsPerPage, |results|) == Utils.ItemRange(21, 15)
    ensures PageItems(results, 3) == []
  {
  }

  /** The pagination bar is rendered only when the list does not fit on one page. */
  predicate PaginationShown(count: nat)
  {
    count > ItemsPerPage
  }

  /** Whenever the bar is shown there are at least two pages; otherwise at most one. */
  lemma PaginationShownPages(count: nat)
    ensures PaginationShown(count) <==> TotalPages(count) >= 2
  {
  }

  // ---------------------------------------------------------------------------
  // The page-number window
  // ---------------------------------------------------------------------------

  /** A slot of the window: a page button, or a disabled ellipsis keyed by its position. */
  datatype Slot = PageButton(page: int) | Ellipsis(position: nat)

  /** The page number computed for window position `i`, before the ellipsis rule. */
  function PageNumber(totalPages: nat, currentPage: int, i: nat): (pageNum: int)
    ensures i < totalPages && i < WindowSize ==> 1 <= pageNum <= totalPages
  {
    if totalPages <= WindowSize then i + 1
    else if currentPage <= 3 then (if i == 4 then totalPages else i + 1)
    else if currentPage >= totalPages - 2 then (if i == 0 then 1 else totalPages - 4 + i)
    else if i == 0 then 1
    else if i == 4 then totalPages
    else currentPage - 2 + i
  }

  /** Position 1 above page 2, or position 3 below the second-to-last page, becomes an ellipsis. */
  predicate ShowsEllipsis(totalPages: nat, i: nat, pageNum: int)
    ensures ShowsEllipsis(totalPages, i, pageNum) ==> totalPages > WindowSize && (i == 1 || i == 3)
  {
    (totalPages > WindowSize && i == 1 && pageNum > 2)
    || (totalPages > WindowSize && i == 3 && pageNum < totalPages - 1)
  }

  /** The slot at window position `i`. */
  function SlotAt(totalPages: nat, currentPage: int, i: nat): (slot: Slot)
    ensures slot.Ellipsis? ==> slot.position == i && totalPages > WindowSize && (i == 1 || i == 3)
    ensures slot.PageButton? ==> slot.page == PageNumber(totalPages, currentPage, i)
  {
    var pageNum := PageNumber(totalPages, currentPage, i);
    if ShowsEllipsis(totalPages, i, pageNum) then Ellipsis(i) else PageButton(pageNum)
  }

  /** The window: `min(totalPages, 5)` slots. */
  function PageWindow(totalPages: nat, currentPage: int): (window: seq<Slot>)
    ensures |window| == if totalPages < WindowSize then totalPages else WindowSize
  {
    var size := if totalPages < WindowSize then totalPages else WindowSize;
    seq(size, i requires 0 <= i < size => SlotAt(totalPages, currentPage, i))
  }

  /** Up to five pages, the window is every page, in order, with no ellipsis. */
  lemma SmallWindow(totalPages: nat, currentPage: int)
    requires totalPages <= WindowSize
    ensures forall i :: 0 <= i < |PageWindow(totalPages, currentPage)| ==>
              PageWindow(totalPages, currentPage)[i] == PageButton(i + 1)
  {
  }

  /**
   * Beyond five pages, the five page numbers rise strictly from 1 to the
   * last page whatever the current page is, so the button keys differ.
   */
  lemma PageNumbersIncrease(totalPages: nat, currentPage: int)
    requires totalPages > WindowSize
    ensures PageNumber(totalPages, currentPage, 0) == 1
    ensures PageNumber(totalPages, currentPage, 4) == totalPages
    ensures forall i, j :: 0 <= i < j < WindowSize ==>
              PageNumber(totalPages, currentPage, i) < PageNumber(totalPages, currentPage, j)
  {
    var p0, p1, p2, p3, p4 := PageNumber(totalPages, currentPage, 0), PageNumber(totalPages, currentPage, 1),
      PageNumber(totalPages, currentPage, 2), PageNumber(totalPages, currentPage, 3), PageNumber(totalPages, currentPage, 4);
    assert p0 < p1 < p2 < p3 < p4;
  }

  /**
   * Beyond five pages the first and last slots are buttons for page 1 and
   * the last page, the middle slot is a button, and only positions 1 and 3
   * can be ellipses.
   */
  lemma LargeWindow(totalPages: nat, currentPage: int)
    requires totalPages > WindowSize
    ensures var w := PageWindow(totalPages, currentPage);
            && |w| == 5
            && w[0] == PageButton(1)
            && w[4] == PageButton(totalPages)
            && w[2].PageButton?
            && forall i :: 0 <= i < 5 && w[i].Ellipsis? ==> (i == 1 || i == 3) && w[i].position == i
  {
  }

  /** No ellipsis appears unless there are more than five pages. */
  lemma EllipsisNeedsManyPages(totalPages: nat, currentPage: int)
    ensures forall i :: 0 <= i < |PageWindow(totalPages, currentPage)| && PageWindow(totalPages, currentPage)[i].Ellipsis?
              ==> totalPages > WindowSize
  {
  }

  /** Every button of the window names an existing page. */
  lemma WindowButtonsInRange(totalPages: nat, currentPage: int)
    ensures forall i :: 0 <= i < |PageWindow(totalPages, currentPage)| && PageWindow(totalPages, currentPage)[i].PageButton?
              ==> 1 <= PageWindow(totalPages, currentPage)[i].page <= totalPages
  {
    if totalPages > WindowSize {
      PageNumbersIncrease(totalPages, currentPage);
    }
  }

  /** The current page, when it exists, always has its own button in the window. */
  lemma CurrentPageInWindow(totalPages: nat, currentPage: int)
    requires 1 <= currentPage <= totalPages
    ensures PageButton(currentPage) in PageWindow(totalPages, currentPage)
  {
    var w := PageWindow(totalPages, currentPage);
    if totalPages <= WindowSize {
      assert w[currentPage - 1] == PageButton(currentPage);
    } else if currentPage <= 3 {
      assert w[currentPage - 1] == PageButton(currentPage);
    } else if currentPage >= totalPages - 2 {
      assert w[currentPage - totalPages + 4] == PageButton(currentPage);
    } else {
      assert w[2] == PageButton(currentPage);
    }
  }

  /** A current page past the last one has no button in the window. */
  lemma StalePageNotInWindow(totalPages: nat, currentPage: int)
    requires currentPage > totalPages
    ensures PageButton(currentPage) !in PageWindow(totalPages, currentPage)
  {
    WindowButtonsInRange(totalPages, currentPage);
  }

  /** Twelve pages: 1 2 3 … 12 on page 1 (page 4 is hidden behind the ellipsis), 1 … 6 … 12 on page 6, 1 … 10 11 12 on page 12. */
  lemma TwelvePageWindows()
    ensures PageWindow(12, 1) == [PageButton(1), PageButton(2), PageButton(3), Ellipsis(3), PageButton(12)]
    ensures PageWindow(12, 6) == [PageButton(1), Ellipsis(1), PageButton(6), Ellipsis(3), PageButton(12)]
    ensures PageWindow(12, 12) == [PageButton(1), Ellipsis(1), PageButton(10), PageButton(11), PageButton(12)]
  {
    assert PageWindow(12, 1) == [PageButton(1), PageButton(2), PageButton(3), Ellipsis(3), PageButton(12)];
    assert PageWindow(12, 6) == [PageButton(1), Ellipsis(1), PageButton(6), Ellipsis(3), PageButton(12)];
    assert PageWindow(12, 12) == [PageButton(1), Ellipsis(1), PageButton(10), PageButton(11), PageButton(12)];
  }

  // ---------------------------------------------------------------------------
  // Cells of a row
  // ---------------------------------------------------------------------------

  /** A row as the result view reads it: display strings, the flag and the optional electrical specs, in entry order. */
  datatype ResultRowData = ResultRowData(
    id: string,
    selected: bool,
    manufacturerPartNumber: string,
    manufacturer: string,
    componentType: string,
    alternativePartNumber: string,
    reason: string,
    specs: Option<seq<(string, string)>>)

  const NoMatchLabel: string := "No matched!"
  const NoReasonLabel: string := "-"

  /** The alternative cell: the alternative part number, or the no-match label when it is empty. */
  function AlternativeCell(row: ResultRowData): (text: string)
    ensures |row.alternativePartNumber| == 0 ==> text == NoMatchLabel
    ensures |row.alternativePartNumber| > 0 ==> text == row.alternativePartNumber
  {
    if |row.alternativePartNumber| > 0 then row.alternativePartNumber else NoMatchLabel
  }

  /** The reason cell: the match reason, or a dash when there is no alternative. */
  function ReasonCell(row: ResultRowData): (text: string)
    ensures |row.alternativePartNumber| == 0 ==> text == NoReasonLabel
    ensures |row.alternativePartNumber| > 0 ==> text == row.reason
  {
    if |row.alternativePartNumber| > 0 then row.reason else NoReasonLabel
  }

  /** The badge class of a row's type, by the category table. */
  function CategoryBadge(row: ResultRowData): (cls: string)
    ensures cls == Utils.FallbackClass <==> row.componentType !in Utils.CategoryClasses
  {
    Utils.CategoryClass(row.componentType)
  }

  /** `key.replace(/_/g, " ")`: every underscore becomes a space, every other character stays. */
  function SpecLabel(key: string): (shown: string)
    ensures |shown| == |key|
    ensures forall i :: 0 <= i < |key| ==> shown[i] == if key[i] == '_' then ' ' else key[i]
  {
    if |key| == 0 then ""
    else [if key[0] == '_' then ' ' else key[0]] + SpecLabel(key[1..])
  }

  /** A label holds no underscore, and relabelling a label changes nothing. */
  lemma SpecLabelClean(key: string)
    ensures '_' !in SpecLabel(key)
    ensures SpecLabel(SpecLabel(key)) == SpecLabel(key)
  {
    var shown := SpecLabel(key);
    assert forall i :: 0 <= i < |shown| ==> shown[i] != '_';
  }

  /** A line of the specs popover. */
  datatype SpecLine = SpecEntry(text: string, value: string) | NoSpecs

  /**
   * The specs popover: one labelled line per entry, in entry order, or the
   * "no specifications" line when the row has no spec object at all.
   */
  function SpecPanel(specs: Option<seq<(string, string)>>): (lines: seq<SpecLine>)
    ensures specs.None? ==> lines == [NoSpecs]
    ensures specs.Some? ==> |lines| == |specs.value|
    ensures specs.Some? ==> forall i :: 0 <= i < |lines| ==>
              lines[i] == SpecEntry(SpecLabel(specs.value[i].0), specs.value[i].1)
  {
    match specs
    case None => [NoSpecs]
    case Some(entries) =>
      seq(|entries|, i requires 0 <= i < |entries| => SpecEntry(SpecLabel(entries[i].0), entries[i].1))
  }

  /** An empty spec object is present, so the popover shows neither entries nor the "no specifications" line. */
  lemma EmptySpecsShowNothing()
    ensures SpecPanel(Some([])) == []
  {
  }

  // ---------------------------------------------------------------------------
  // The view state
  // ---------------------------------------------------------------------------

  /** The view's own state: the header checkbox and the current page, kept across result replacements. */
  class ResultsView {
    var selectAll: bool
    var currentPage: int

    /** Pages are numbered from 1; nothing in the view moves below. */
    predicate Valid()
      reads this
    {
      currentPage >= 1
    }

    constructor ()
      ensures Valid() && !selectAll && currentPage == 1
    {
      selectAll := false;
      currentPage := 1;
    }

    /** The rows on screen for the given list. */
    function CurrentItems<T>(results: seq<T>): (items: seq<T>)
      reads this
      ensures |items| <= ItemsPerPage
      ensures 1 <= currentPage <= TotalPages(|results|) ==> |items| >= 1
      ensures currentPage > TotalPages(|results|) ==> items == []
    {
      if 1 <= currentPage <= TotalPages(|results|) then
        PageItemsOfExistingPage(results, currentPage);
        PageItems(results, currentPage)
      else
        PageItems(results, currentPage)
    }

    /** The previous-page button is disabled; then there is no earlier page to go to. */
    predicate PreviousDisabled()
      reads this
      ensures PreviousDisabled() ==> !(1 <= currentPage - 1)
    {
      currentPage == 1
    }

    /** The next-page button is disabled; then there is no later page to go to. */
    predicate NextDisabled(resultCount: nat)
      reads this
      ensures NextDisabled(resultCount) ==> !(1 <= currentPage + 1 <= TotalPages(resultCount))
    {
      currentPage == TotalPages(resultCount)
    }

    /**
     * On an existing page the buttons are disabled exactly at the ends: Previous
     * on page 1, Next when no rows follow. On a stale page past the last, Next
     * stays enabled although no rows follow.
     */
    lemma NavigationButtons<T>(results: seq<T>)
      requires Valid()
      ensures currentPage <= TotalPages(|results|) ==>
                (PreviousDisabled() <==> currentPage == 1)
                && (NextDisabled(|results|) <==> PageItems(results, currentPage + 1) == [])
      ensures currentPage > TotalPages(|results|) ==>
                !NextDisabled(|results|) && PageItems(results, currentPage + 1) == []
    {
      if currentPage < TotalPages(|results|) {
        PageItemsOfExistingPage(results, currentPage + 1);
      } else {
        PageItemsPastLastPage(results, currentPage + 1);
      }
    }

    /** Moves to `page` if it is a page of the list, otherwise changes nothing. */
    method GoToPage(page: int, resultCount: nat)
      requires Valid()
      modifies this`currentPage
      ensures Valid()
      ensures 1 <= page <= TotalPages(resultCount) ==> currentPage == page
      ensures !(1 <= page <= TotalPages(resultCount)) ==> currentPage == old(currentPage)
    {
      if page >= 1 && page <= TotalPages(resultCount) {
        currentPage := page;
      }
    }

    /**
     * The previous-page button: it moves back by one whenever the page before
     * exists (also from a stale page just past the last), otherwise nothing.
     */
    method Previous(resultCount: nat)
      requires Valid()
      modifies this`currentPage
      ensures Valid()
      ensures 1 <= old(currentPage) - 1 <= TotalPages(resultCount) ==> currentPage == old(currentPage) - 1
      ensures !(1 <= old(currentPage) - 1 <= TotalPages(resultCount)) ==> currentPage == old(currentPage)
      ensures old(PreviousDisabled()) ==> currentPage == old(currentPage)
    {
      GoToPage(currentPage - 1, resultCount);
    }

    /** The next-page button; from an existing page other than the last it moves on by one. */
    method Next(resultCount: nat)
      requires Valid()
      modifies this`currentPage
      ensures Valid()
      ensures old(currentPage) < TotalPages(resultCount) ==> currentPage == old(currentPage) + 1
      ensures old(currentPage) >= TotalPages(resultCount) ==> currentPage == old(currentPage)
    {
      GoToPage(currentPage + 1, resultCount);
    }

    /** The header checkbox: it takes the new value and forwards it to the page, which ticks or unticks every row. */
    method HandleSelectAll(checked: bool, page: Home.HomePage)
      modifies this`selectAll, page`results
      ensures selectAll == checked
      ensures page.results == Home.WithAllSelected(old(page.results), checked)
    {
      selectAll := checked;
      page.HandleToggleSelectAll(checked);
    }

    /** A row checkbox forwards to the page; the header checkbox is not recomputed. */
    method HandleRowCheckbox(id: string, checked: bool, page: Home.HomePage)
      modifies page`results
      ensures page.results == Home.WithSelection(old(page.results), id, checked)
    {
      page.HandleToggleSelect(id, checked);
    }
  }

  /**
   * Ticking the header checkbox and then unticking one row leaves the header
   * checked although not every row is ticked.
   */
  method HeaderStaysCheckedAfterUntick(view: ResultsView, page: Home.HomePage, id: string)
    requires exists i :: 0 <= i < |page.results| && page.results[i].id == id
    modifies view`selectAll, page`results
    ensures view.selectAll
    ensures exists i :: 0 <= i < |page.results| && !page.results[i].selected
  {
    var k :| 0 <= k < |page.results| && page.results[k].id == id;
    view.HandleSelectAll(true, page);
    view.HandleRowCheckbox(id, false, page);
    assert !page.results[k].selected;
  }
}
