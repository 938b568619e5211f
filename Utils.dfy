/**
 * The pure helpers of the front end: the badge class of a component
 * category, the text of the CSV export, the empty-input guard of both
 * exporters, and the "Showing X to Y of Z results" line under the table.
 */
module Utils {
  import opened Wrappers
  import opened Text
  import opened Types

  // ---------------------------------------------------------------------------
  // Category badge
  // ---------------------------------------------------------------------------

  /** The badge class table; its keys are the plural category names. */
  const CategoryClasses: map<string, string> := map[
    "Inductors" := "category-inductors",
    "Capacitors" := "category-capacitors",
    "Resistors" := "category-resistors",
    "Connectors" := "category-connectors",
    "Diodes" := "category-diodes"
  ]

  /** The neutral class for every category the table does not know. */
  const FallbackClass: string := "bg-gray-100 text-gray-800"

  /** `getCategoryClass`: look the category up, falling back to the neutral class. */
  function CategoryClass(category: string): (cls: string)
    ensures cls == FallbackClass <==> category !in CategoryClasses
    ensures category in CategoryClasses ==> cls == CategoryClasses[category]
  {
    // The table's values are non-empty, so `||` falls back exactly on a missing key.
    if category in CategoryClasses && CategoryClasses[category] != "" then CategoryClasses[category]
    else FallbackClass
  }

  /** The lookup is total and exact: five plural keys get their own class, every other string the fallback. */
  lemma CategoryClassTable(category: string)
    ensures category == "Inductors" ==> CategoryClass(category) == "category-inductors"
    ensures category == "Capacitors" ==> CategoryClass(category) == "category-capacitors"
    ensures category == "Resistors" ==> CategoryClass(category) == "category-resistors"
    ensures category == "Connectors" ==> CategoryClass(category) == "category-connectors"
    ensures category == "Diodes" ==> CategoryClass(category) == "category-diodes"
    ensures category !in {"Inductors", "Capacitors", "Resistors", "Connectors", "Diodes"}
            ==> CategoryClass(category) == FallbackClass
  {
  }

  /** Matching is case-sensitive and exact: singular or lower-case labels get the fallback. */
  lemma SingularLabelsFallBack()
    ensures CategoryClass("Resistor") == FallbackClass
    ensures CategoryClass("Capacitor") == FallbackClass
    ensures CategoryClass("Inductor") == FallbackClass
    ensures CategoryClass("resistors") == FallbackClass
  {
    assert "Resistor" !in CategoryClasses;
    assert "Capacitor" !in CategoryClasses;
    assert "Inductor" !in CategoryClasses;
    assert "resistors" !in CategoryClasses;
  }

  // ---------------------------------------------------------------------------
  // CSV export
  // ---------------------------------------------------------------------------

  /** The header cells of the CSV export. */
  const CsvHeader: seq<string> := ["Product Number", "Competitor", "Category", "Alternative"]

  /** The four exported cells of a row, verbatim and in column order. */
  function CsvFields(row: ComponentResult): (cells: seq<string>)
    ensures |cells| == 4
  {
    [row.productNumber, row.competitor, row.category, row.alternative]
  }

  /** The lines of the CSV text: the header line, then one line per row in input order. */
  function CsvLines(data: seq<ComponentResult>): (lines: seq<string>)
    ensures |lines| == |data| + 1
    ensures lines[0] == Join(CsvHeader, ',')
    ensures forall i :: 0 <= i < |data| ==> lines[i + 1] == Join(CsvFields(data[i]), ',')
  {
    [Join(CsvHeader, ',')] + seq(|data|, i requires 0 <= i < |data| => Join(CsvFields(data[i]), ','))
  }

  /**
   * `exportAsCSV`: `None` is the early return on an empty list (nothing is
   * built or saved); otherwise the text handed to the file saver.
   */
  function ExportCsv(data: seq<ComponentResult>): (text: Option<string>)
    ensures text.None? <==> |data| == 0
  {
    if |data| == 0 then None else Some(Join(CsvLines(data), '\n'))
  }

  /** No exported cell of any row contains the character `c`. */
  predicate CellsAvoid(data: seq<ComponentResult>, c: char)
  {
    forall i :: 0 <= i < |data| ==> NoneContains(CsvFields(data[i]), c)
  }

  /** When no cell holds a newline, no CSV line holds one. */
  lemma CsvLinesAvoidNewline(data: seq<ComponentResult>)
    requires CellsAvoid(data, '\n')
    ensures NoneContains(CsvLines(data), '\n')
  {
    var lines := CsvLines(data);
    assert NoneContains(CsvHeader, '\n');
    JoinAvoids(CsvHeader, ',', '\n');
    forall i | 0 <= i < |lines|
      ensures '\n' !in lines[i]
    {
      if i > 0 {
        JoinAvoids(CsvFields(data[i - 1]), ',', '\n');
      }
    }
  }

  /** Four cells joined: each separator sits between two cells. */
  lemma JoinFour(a: string, b: string, c: string, d: string, sep: char)
    ensures Join([a, b, c, d], sep) == a + [sep] + b + [sep] + c + [sep] + d
  {
    var w := [a, b, c, d];
    assert Join(w[3..], sep) == d;
    assert Join(w[2..], sep) == c + [sep] + d by {
      assert w[2..][1..] == w[3..];
    }
    assert Join(w[1..], sep) == b + [sep] + c + [sep] + d by {
      assert w[1..][1..] == w[2..];
    }
  }

  /** The header line spelled out. */
  lemma CsvHeaderLine()
    ensures Join(CsvHeader, ',') == "Product Number,Competitor,Category,Alternative"
  {
    JoinFour("Product Number", "Competitor", "Category", "Alternative", ',');
  }

  /**
   * The exported text has exactly one line more than the input has rows, the
   * first being the fixed header, whenever no cell holds a newline; lines
   * are separated by single newlines with none after the last.
   */
  lemma CsvLineCount(data: seq<ComponentResult>)
    requires |data| > 0
    requires CellsAvoid(data, '\n')
    ensures ExportCsv(data).Some?
    ensures |Split(ExportCsv(data).value, '\n')| == |data| + 1
    ensures Split(ExportCsv(data).value, '\n')[0] == "Product Number,Competitor,Category,Alternative"
  {
    var lines := CsvLines(data);
    CsvLinesAvoidNewline(data);
    SplitJoin(lines, '\n');
    CsvHeaderLine();
  }

  /**
   * Round trip: when no cell holds a comma or a newline, splitting the text
   * on newlines and each line on commas gives back the header cells and the
   * four cells of every row, in input order.
   */
  lemma CsvRoundTrip(data: seq<ComponentResult>)
    requires |data| > 0
    requires CellsAvoid(data, '\n') && CellsAvoid(data, ',')
    ensures ExportCsv(data).Some?
    ensures var lines := Split(ExportCsv(data).value, '\n');
            && |lines| == |data| + 1
            && Split(lines[0], ',') == CsvHeader
            && forall i :: 0 <= i < |data| ==> Split(lines[i + 1], ',') == CsvFields(data[i])
  {
    CsvLinesAvoidNewline(data);
    SplitJoin(CsvLines(data), '\n');
    assert NoneContains(CsvHeader, ',');
    SplitJoin(CsvHeader, ',');
    forall i | 0 <= i < |data|
      ensures Split(CsvLines(data)[i + 1], ',') == CsvFields(data[i])
    {
      SplitJoin(CsvFields(data[i]), ',');
    }
  }

  /** The selection flag and the id are not exported: rows that agree on the four cells give the same text. */
  lemma CsvIgnoresSelection(data: seq<ComponentResult>, other: seq<ComponentResult>)
    requires |data| == |other|
    requires forall i :: 0 <= i < |data| ==> CsvFields(data[i]) == CsvFields(other[i])
    ensures ExportCsv(data) == ExportCsv(other)
  {
    assert CsvLines(data) == CsvLines(other);
  }

  // ---------------------------------------------------------------------------
  // JSON export
  // ---------------------------------------------------------------------------

  /**
   * `exportAsJSON`: `None` is the early return on an empty list; otherwise the
   * list handed, whole and unchanged, to the JSON serializer.
   */
  function ExportJson(data: seq<ComponentResult>): (payload: Option<seq<ComponentResult>>)
    ensures payload.None? <==> |data| == 0
    ensures payload.Some? ==> payload.value == data
  {
    if |data| == 0 then None else Some(data)
  }

  // ---------------------------------------------------------------------------
  // Pagination text
  // ---------------------------------------------------------------------------

  /** The first and last item number the pagination line reports. */
  datatype ItemRange = ItemRange(start: int, end: int)

  /** `Math.ceil(total / perPage)` for a positive page size. */
  function CeilDiv(total: int, perPage: int): (pages: int)
    requires perPage > 0
    ensures (pages - 1) * perPage < total <= pages * perPage
  {
    (total + perPage - 1) / perPage
  }

  /** The numbers inside `formatPaginationText`: start = (c - 1) * p + 1, end = min(c * p, total). */
  function PaginationRange(currentPage: int, perPage: int, totalItems: int): (r: ItemRange)
    ensures r.start - 1 == (currentPage - 1) * perPage
    ensures r.end <= currentPage * perPage && r.end <= totalItems
    ensures r.end == currentPage * perPage || r.end == totalItems
  {
    var last := currentPage * perPage;
    ItemRange((currentPage - 1) * perPage + 1, if last < totalItems then last else totalItems)
  }

  /** `formatPaginationText`: "Showing <start> to <end> of <total> results". */
  function PaginationText(currentPage: int, perPage: int, totalItems: int): string
  {
    var r := PaginationRange(currentPage, perPage, totalItems);
    "Showing " + IntToDecimal(r.start) + " to " + IntToDecimal(r.end) + " of " + IntToDecimal(totalItems) + " results"
  }

  /** `a <= b` scaled by a non-negative factor. */
  lemma MulMonotone(a: int, b: int, p: int)
    requires a <= b && p >= 0
    ensures a * p <= b * p
  {
    assert b * p - a * p == (b - a) * p;
  }

  /**
   * On a page that exists, the reported range is non-empty and inside the
   * list: 1 <= start <= end <= total, and end - start + 1 is a full page
   * except on the last page, which holds the remainder.
   */
  lemma PaginationRangeBounds(currentPage: int, perPage: int, totalItems: int)
    requires totalItems > 0 && perPage > 0
    requires 1 <= currentPage <= CeilDiv(totalItems, perPage)
    ensures var r := PaginationRange(currentPage, perPage, totalItems);
            && 1 <= r.start <= r.end <= totalItems
            && r.end - r.start + 1 == (if currentPage * perPage <= totalItems then perPage
                                       else totalItems - (currentPage - 1) * perPage)
  {
    var pages := CeilDiv(totalItems, perPage);
    MulMonotone(currentPage - 1, pages - 1, perPage);
    MulMonotone(0, currentPage - 1, perPage);
    assert currentPage * perPage == (currentPage - 1) * perPage + perPage;
  }

  /** The pagination line is its seven words joined by single spaces. */
  lemma PaginationWords(a: string, b: string, t: string)
    ensures Join(["Showing", a, "to", b, "of", t, "results"], ' ')
            == "Showing " + a + " to " + b + " of " + t + " results"
  {
    var w := ["Showing", a, "to", b, "of", t, "results"];
    assert Join(w[5..], ' ') == t + " results";
    assert Join(w[4..], ' ') == "of " + t + " results" by {
      assert w[4..][1..] == w[5..];
    }
    assert Join(w[3..], ' ') == b + " of " + t + " results" by {
      assert w[3..][1..] == w[4..];
    }
    assert Join(w[2..], ' ') == "to " + b + " of " + t + " results" by {
      assert w[2..][1..] == w[3..];
    }
    assert Join(w[1..], ' ') == a + " to " + b + " of " + t + " results" by {
      assert w[1..][1..] == w[2..];
    }
  }

  /** The line reads back: its words are the fixed ones and the three numbers in decimal. */
  lemma PaginationTextReadsBack(currentPage: int, perPage: int, totalItems: int)
    requires currentPage >= 1 && perPage >= 0 && totalItems >= 0
    ensures var r := PaginationRange(currentPage, perPage, totalItems);
            var words := Split(PaginationText(currentPage, perPage, totalItems), ' ');
            && r.start >= 1 && r.end >= 0
            && words == ["Showing", NatToDecimal(r.start), "to", NatToDecimal(r.end),
                         "of", NatToDecimal(totalItems), "results"]
            && DecimalValue(words[1]) == r.start
            && DecimalValue(words[3]) == r.end
            && DecimalValue(words[5]) == totalItems
  {
    var r := PaginationRange(currentPage, perPage, totalItems);
    MulMonotone(0, currentPage - 1, perPage);
    MulMonotone(0, currentPage, perPage);
    var a, b, t := NatToDecimal(r.start), NatToDecimal(r.end), NatToDecimal(totalItems);
    var words := ["Showing", a, "to", b, "of", t, "results"];
    PaginationWords(a, b, t);
    assert NoneContains(words, ' ');
    SplitJoin(words, ' ');
    DecimalRoundTrip(r.start);
    DecimalRoundTrip(r.end);
    DecimalRoundTrip(totalItems);
  }
}
