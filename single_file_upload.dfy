/** The ingestion pipeline for text documents (`SingleFileUpload`): the page
    map built from a Form Recognizer layout analysis, with tables rendered as
    HTML; the page blob names; the section documents and their batched upload;
    and the sequence of steps of `run`.

    The analysis result, the summary, the embedding service and the stores
    are inputs; see `AnalyzeResult`, `Summary`, `IndexDocument` and `Run`.
 */
module SingleFileUpload {
  import opened Strings
  import opened Splitter
  import opened Indexing
  import Retry
  import Utils

  // ---------------------------------------------------------------------------
  // The analysis result

  datatype Span = Span(offset: int, length: nat)

  datatype Cell = Cell(
    rowIndex: int,
    columnIndex: int,
    kind: string,
    columnSpan: int,
    rowSpan: int,
    content: string)

  /** A table; `pageNumber` is the 1-based page of its first bounding region. */
  datatype Table = Table(pageNumber: int, spans: seq<Span>, rowCount: nat, cells: seq<Cell>)

  /** A page; only its first span is read. */
  datatype RecognizedPage = RecognizedPage(span: Span)

  datatype AnalyzeResult = AnalyzeResult(content: string, pages: seq<RecognizedPage>, tables: seq<Table>)

  // ---------------------------------------------------------------------------
  // blob_name_from_file_page

  /** `f"{stem}-page{page}.txt"` where `stem, _ = filename.split(".")`; the
      unpacking raises (`None`) unless the name has exactly one '.'. */
  function BlobNameFromFilePage(filename: string, page: int): (r: Option<string>)
    ensures r.Some? <==> CountChar(filename, '.') == 1
  {
    SplitCount(filename, '.');
    var parts := Split(filename, '.');
    if |parts| != 2 then None else Some(parts[0] + "-page" + IntToString(page) + ".txt")
  }

  /** For a name with one '.', the blob name replaces the extension. */
  lemma BlobNameReplacesExtension(stem: string, extension: string, page: int)
    requires NoChar(stem, '.') && NoChar(extension, '.')
    ensures BlobNameFromFilePage(stem + "." + extension, page) == Some(stem + "-page" + IntToString(page) + ".txt")
  {
    assert Join([stem, extension], ".") == stem + "." + extension;
    SplitJoin([stem, extension], '.');
  }

  // ---------------------------------------------------------------------------
  // table_to_html

  function CellTag(cell: Cell): string
  {
    if cell.kind == "columnHeader" || cell.kind == "rowHeader" then "th" else "td"
  }

  /** The span attributes are written only for spans greater than one. */
  function ColSpanAttribute(cell: Cell): string
  {
    if cell.columnSpan > 1 then " colSpan=" + IntToString(cell.columnSpan) else ""
  }

  function RowSpanAttribute(cell: Cell): string
  {
    if cell.rowSpan > 1 then " rowSpan=" + IntToString(cell.rowSpan) else ""
  }

  function CellSpans(cell: Cell): string
  {
    ColSpanAttribute(cell) + RowSpanAttribute(cell)
  }

  function CellHtml(cell: Cell): string
  {
    "<" + CellTag(cell) + CellSpans(cell) + ">" + HtmlEscape(cell.content) + "</" + CellTag(cell) + ">"
  }

  predicate SortedByColumn(cells: seq<Cell>)
  {
    forall j, k :: 0 <= j < k < |cells| ==> cells[j].columnIndex <= cells[k].columnIndex
  }

  /** The cells in column `c`, in order. */
  function InColumn(cells: seq<Cell>, c: int): seq<Cell>
    decreases |cells|
  {
    if cells == [] then []
    else (if cells[0].columnIndex == c then [cells[0]] else []) + InColumn(cells[1..], c)
  }

  lemma {:induction false} InColumnConcat(a: seq<Cell>, b: seq<Cell>, c: int)
    ensures InColumn(a + b, c) == InColumn(a, c) + InColumn(b, c)
    decreases |a|
  {
    if a == [] {
      assert a + b == b;
    } else {
      var h := if a[0].columnIndex == c then [a[0]] else [];
      assert (a + b)[0] == a[0] && (a + b)[1..] == a[1..] + b;
      assert InColumn(a + b, c) == h + InColumn(a[1..] + b, c);
      InColumnConcat(a[1..], b, c);
      assert h + (InColumn(a[1..], c) + InColumn(b, c)) == (h + InColumn(a[1..], c)) + InColumn(b, c);
    }
  }

  lemma {:induction false} InColumnAbove(cells: seq<Cell>, c: int)
    requires forall k :: 0 <= k < |cells| ==> cells[k].columnIndex > c
    ensures InColumn(cells, c) == []
    decreases |cells|
  {
    if cells != [] {
      InColumnAbove(cells[1..], c);
    }
  }

  /** Inserts `x` after every cell whose column is not greater than its own. */
  function InsertByColumn(x: Cell, cells: seq<Cell>): (r: seq<Cell>)
    decreases |cells|
    ensures |r| == |cells| + 1
  {
    if cells == [] then [x]
    else if cells[0].columnIndex <= x.columnIndex then [cells[0]] + InsertByColumn(x, cells[1..])
    else [x] + cells
  }

  lemma {:induction false} InsertByColumnBound(x: Cell, cells: seq<Cell>, b: int)
    requires b <= x.columnIndex
    requires forall k :: 0 <= k < |cells| ==> b <= cells[k].columnIndex
    ensures forall k :: 0 <= k < |InsertByColumn(x, cells)| ==> b <= InsertByColumn(x, cells)[k].columnIndex
    decreases |cells|
  {
    if cells != [] && cells[0].columnIndex <= x.columnIndex {
      InsertByColumnBound(x, cells[1..], b);
    }
  }

  lemma {:induction false} InsertByColumnSorted(x: Cell, cells: seq<Cell>)
    requires SortedByColumn(cells)
    ensures SortedByColumn(InsertByColumn(x, cells))
    decreases |cells|
  {
    if cells != [] && cells[0].columnIndex <= x.columnIndex {
      InsertByColumnSorted(x, cells[1..]);
      InsertByColumnBound(x, cells[1..], cells[0].columnIndex);
    }
  }

  lemma {:induction false} InsertByColumnMultiset(x: Cell, cells: seq<Cell>)
    ensures multiset(InsertByColumn(x, cells)) == multiset(cells) + multiset{x}
    decreases |cells|
  {
    if cells != [] && cells[0].columnIndex <= x.columnIndex {
      InsertByColumnMultiset(x, cells[1..]);
      assert cells == [cells[0]] + cells[1..];
    }
  }

  lemma InColumnOne(y: Cell, c: int)
    ensures InColumn([y], c) == if y.columnIndex == c then [y] else []
  {
    assert [y][1..] == [];
  }

  lemma {:induction false} InsertByColumnInColumn(x: Cell, cells: seq<Cell>, c: int)
    requires SortedByColumn(cells)
    ensures InColumn(InsertByColumn(x, cells), c) == InColumn(cells, c) + (if x.columnIndex == c then [x] else [])
    decreases |cells|
  {
    if cells == [] {
      InColumnOne(x, c);
    } else if cells[0].columnIndex <= x.columnIndex {
      var rest := cells[1..];
      SortedTail(cells);
      InsertByColumnInColumn(x, rest, c);
      assert InsertByColumn(x, cells) == [cells[0]] + InsertByColumn(x, rest);
      assert cells == [cells[0]] + rest;
      InColumnKeepsHead(cells[0], rest, InsertByColumn(x, rest), c, if x.columnIndex == c then [x] else []);
    } else {
      assert InsertByColumn(x, cells) == [x] + cells;
      InColumnInFront(x, cells, c);
    }
  }

  lemma SortedTail(cells: seq<Cell>)
    requires cells != [] && SortedByColumn(cells)
    ensures SortedByColumn(cells[1..])
  {
    assert forall k :: 0 <= k < |cells| - 1 ==> cells[1..][k] == cells[k + 1];
  }

  /** A cell in front of two lists whose column-`c` cells differ by `added`
      keeps that difference. */
  lemma InColumnKeepsHead(y: Cell, rest: seq<Cell>, longer: seq<Cell>, c: int, added: seq<Cell>)
    requires InColumn(longer, c) == InColumn(rest, c) + added
    ensures InColumn([y] + longer, c) == InColumn([y] + rest, c) + added
  {
    var h := if y.columnIndex == c then [y] else [];
    InColumnCons(y, longer, c);
    InColumnCons(y, rest, c);
    assert h + (InColumn(rest, c) + added) == (h + InColumn(rest, c)) + added;
  }

  /** A cell put in front of sorted cells of greater columns comes last
      among the cells of its column. */
  lemma InColumnInFront(x: Cell, cells: seq<Cell>, c: int)
    requires cells != [] && SortedByColumn(cells) && x.columnIndex < cells[0].columnIndex
    ensures InColumn([x] + cells, c) == InColumn(cells, c) + (if x.columnIndex == c then [x] else [])
  {
    InColumnCons(x, cells, c);
    if c == x.columnIndex {
      assert forall k :: 0 <= k < |cells| ==> cells[0].columnIndex <= cells[k].columnIndex;
      InColumnAbove(cells, c);
    }
  }

  lemma InColumnCons(y: Cell, t: seq<Cell>, c: int)
    ensures InColumn([y] + t, c) == (if y.columnIndex == c then [y] else []) + InColumn(t, c)
  {
    assert ([y] + t)[0] == y && ([y] + t)[1..] == t;
  }

  lemma InColumnSnoc(cells: seq<Cell>, c: int)
    requires cells != []
    ensures InColumn(cells, c) == InColumn(cells[..|cells| - 1], c)
      + (if cells[|cells| - 1].columnIndex == c then [cells[|cells| - 1]] else [])
  {
    var n := |cells|;
    assert cells == cells[..n - 1] + [cells[n - 1]];
    InColumnConcat(cells[..n - 1], [cells[n - 1]], c);
  }

  /** Python `sorted(cells, key=lambda cell: cell.column_index)`, as an
      insertion sort from the back. */
  function SortByColumn(cells: seq<Cell>): (r: seq<Cell>)
    decreases |cells|
    ensures |r| == |cells|
  {
    if cells == [] then [] else InsertByColumn(cells[|cells| - 1], SortByColumn(cells[..|cells| - 1]))
  }

  /** The sort is sorted by column, a permutation of its input, and stable:
      the cells of each column keep their order. */
  lemma {:induction false} SortByColumnProperties(cells: seq<Cell>)
    ensures SortedByColumn(SortByColumn(cells))
    ensures multiset(SortByColumn(cells)) == multiset(cells)
    ensures forall c :: InColumn(SortByColumn(cells), c) == InColumn(cells, c)
    decreases |cells|
  {
    if cells != [] {
      var n := |cells|;
      SortByColumnProperties(cells[..n - 1]);
      SortStep(cells, SortByColumn(cells[..n - 1]));
    }
  }

  /** Inserting the last cell into the sorted others keeps the three
      properties of the sort. */
  lemma SortStep(cells: seq<Cell>, sorted: seq<Cell>)
    requires cells != []
    requires SortedByColumn(sorted) && multiset(sorted) == multiset(cells[..|cells| - 1])
    requires forall c :: InColumn(sorted, c) == InColumn(cells[..|cells| - 1], c)
    ensures var r := InsertByColumn(cells[|cells| - 1], sorted);
      && SortedByColumn(r) && multiset(r) == multiset(cells)
      && forall c :: InColumn(r, c) == InColumn(cells, c)
  {
    var n := |cells|;
    InsertByColumnSorted(cells[n - 1], sorted);
    InsertByColumnMultiset(cells[n - 1], sorted);
    assert cells == cells[..n - 1] + [cells[n - 1]];
    forall c ensures InColumn(InsertByColumn(cells[n - 1], sorted), c) == InColumn(cells, c) {
      InsertByColumnInColumn(cells[n - 1], sorted, c);
      InColumnSnoc(cells, c);
    }
  }

  /** The cells of row `i`, in order. */
  function InRow(cells: seq<Cell>, i: int): (r: seq<Cell>)
    decreases |cells|
    ensures forall k :: 0 <= k < |r| ==> r[k].rowIndex == i
    ensures multiset(r) <= multiset(cells)
  {
    if cells == [] then []
    else
      assert cells == [cells[0]] + cells[1..];
      if cells[0].rowIndex == i then [cells[0]] + InRow(cells[1..], i) else InRow(cells[1..], i)
  }

  /** The cells written for row `i`. */
  function RowCells(table: Table, i: int): seq<Cell>
  {
    SortByColumn(InRow(table.cells, i))
  }

  function CellsHtml(cells: seq<Cell>): string
    decreases |cells|
  {
    if cells == [] then "" else CellsHtml(cells[..|cells| - 1]) + CellHtml(cells[|cells| - 1])
  }

  function RowHtml(table: Table, i: int): string
  {
    "<tr>" + CellsHtml(RowCells(table, i)) + "</tr>"
  }

  /** The `<tr>` elements of rows `0 .. n - 1`, in order. */
  function RowsHtml(table: Table, n: nat): string
  {
    if n == 0 then "" else RowsHtml(table, n - 1) + RowHtml(table, n - 1)
  }

  function TableHtml(table: Table): string
  {
    "<table>" + RowsHtml(table, table.rowCount) + "</table>"
  }

  /** The inner loop of `table_to_html`: appends the cells of one row. */
  method AppendCells(prefix: string, rowCells: seq<Cell>) returns (tableHtml: string)
    ensures tableHtml == prefix + CellsHtml(rowCells)
  {
    tableHtml := prefix;
    for k := 0 to |rowCells|
      invariant tableHtml == prefix + CellsHtml(rowCells[..k])
    {
      var cellHtml := BuildCellHtml(rowCells[k]);
      CellsHtmlSnoc(rowCells, k);
      ConcatAssoc(prefix, CellsHtml(rowCells[..k]), cellHtml);
      tableHtml := tableHtml + cellHtml;
    }
    assert rowCells[..|rowCells|] == rowCells;
  }

  /** The loop body of `table_to_html` for one cell: the tag, the span
      attributes and the escaped content. */
  method BuildCellHtml(cell: Cell) returns (cellHtml: string)
    ensures cellHtml == CellHtml(cell)
  {
    var tag := if cell.kind == "columnHeader" || cell.kind == "rowHeader" then "th" else "td";
    var cellSpans := "";
    if cell.columnSpan > 1 {
      var attribute := " colSpan=" + IntToString(cell.columnSpan);
      assert cellSpans + attribute == attribute;
      cellSpans := cellSpans + attribute;
    }
    assert cellSpans == ColSpanAttribute(cell);
    if cell.rowSpan > 1 {
      cellSpans := cellSpans + " rowSpan=" + IntToString(cell.rowSpan);
    }
    assert tag == CellTag(cell);
    assert cellSpans == CellSpans(cell);
    cellHtml := "<" + tag + cellSpans + ">" + HtmlEscape(cell.content) + "</" + tag + ">";
  }

  lemma CellsHtmlSnoc(cells: seq<Cell>, k: nat)
    requires k < |cells|
    ensures CellsHtml(cells[..k + 1]) == CellsHtml(cells[..k]) + CellHtml(cells[k])
  {
    assert cells[..k + 1][..k] == cells[..k];
  }

  /** `table_to_html`: the string is accumulated row by row and cell by cell. */
  method TableToHtml(table: Table) returns (tableHtml: string)
    ensures tableHtml == TableHtml(table)
  {
    tableHtml := "<table>";
    for i := 0 to table.rowCount
      invariant tableHtml == "<table>" + RowsHtml(table, i)
    {
      ghost var before := tableHtml;
      var rowCells := SortByColumn(InRow(table.cells, i));
      tableHtml := AppendCells(tableHtml + "<tr>", rowCells);
      tableHtml := tableHtml + "</tr>";
      ConcatAssoc(before, "<tr>", CellsHtml(rowCells));
      ConcatAssoc(before, "<tr>" + CellsHtml(rowCells), "</tr>");
      ConcatAssoc("<table>", RowsHtml(table, i), RowHtml(table, i));
    }
    tableHtml := tableHtml + "</table>";
  }

  /** Row `i`'s cells are exactly that row's cells of the table, sorted by
      column and otherwise in table order. */
  lemma RowCellsAreTheRow(table: Table, i: int)
    ensures SortedByColumn(RowCells(table, i))
    ensures multiset(RowCells(table, i)) == multiset(InRow(table.cells, i))
    ensures forall k :: 0 <= k < |RowCells(table, i)| ==> RowCells(table, i)[k].rowIndex == i
    ensures forall c :: InColumn(RowCells(table, i), c) == InColumn(InRow(table.cells, i), c)
  {
    var r := RowCells(table, i);
    SortByColumnProperties(InRow(table.cells, i));
    forall k | 0 <= k < |r| ensures r[k].rowIndex == i {
      assert r[k] in multiset(r);
      assert r[k] in InRow(table.cells, i);
    }
  }

  // ---------------------------------------------------------------------------
  // get_document_text

  /** Each page's first span lies inside the analysed content. */
  predicate WithinContent(result: AnalyzeResult)
  {
    forall k :: 0 <= k < |result.pages| ==>
      0 <= result.pages[k].span.offset && result.pages[k].span.offset + result.pages[k].span.length <= |result.content|
  }

  /** The tables whose first bounding region is on (1-based) page `pageNumber`. */
  function TablesOnPage(tables: seq<Table>, pageNumber: int): (r: seq<Table>)
    decreases |tables|
    ensures forall k :: 0 <= k < |r| ==> r[k].pageNumber == pageNumber
    ensures multiset(r) <= multiset(tables)
  {
    if tables == [] then []
    else
      assert tables == [tables[0]] + tables[1..];
      if tables[0].pageNumber == pageNumber then [tables[0]] + TablesOnPage(tables[1..], pageNumber)
      else TablesOnPage(tables[1..], pageNumber)
  }

  lemma {:induction false} NoTablesOnPage(tables: seq<Table>, pageNumber: int)
    requires forall k :: 0 <= k < |tables| ==> tables[k].pageNumber != pageNumber
    ensures TablesOnPage(tables, pageNumber) == []
    decreases |tables|
  {
    if tables != [] {
      NoTablesOnPage(tables[1..], pageNumber);
    }
  }

  predicate SpanCovers(span: Span, position: int)
  {
    span.offset <= position < span.offset + span.length
  }

  predicate TableCovers(table: Table, position: int)
  {
    exists k :: 0 <= k < |table.spans| && SpanCovers(table.spans[k], position)
  }

  /** Position `idx` of the page starting at `pageOffset` lies in one of the spans. */
  predicate CoveredAt(spans: seq<Span>, pageOffset: int, idx: int)
  {
    exists k :: 0 <= k < |spans| && SpanCovers(spans[k], pageOffset + idx)
  }

  lemma CoveredAtNext(spans: seq<Span>, s: nat, pageOffset: int, idx: int)
    requires s < |spans|
    ensures CoveredAt(spans[..s + 1], pageOffset, idx)
      <==> CoveredAt(spans[..s], pageOffset, idx) || SpanCovers(spans[s], pageOffset + idx)
  {
    assert spans[..s + 1][s] == spans[s];
    assert forall k :: 0 <= k < s ==> spans[..s + 1][k] == spans[..s][k];
  }

  /** The mark of a content position: the last table of the page, in table
      order, one of whose spans covers it, or -1. */
  function MarkAt(tables: seq<Table>, position: int): (r: int)
    decreases |tables|
    ensures -1 <= r < |tables|
    ensures r >= 0 ==> TableCovers(tables[r], position)
    ensures forall k :: r < k < |tables| ==> !TableCovers(tables[k], position)
  {
    if tables == [] then -1
    else if TableCovers(tables[|tables| - 1], position) then |tables| - 1
    else MarkAt(tables[..|tables| - 1], position)
  }

  function Marks(tables: seq<Table>, pageOffset: int, pageLength: nat): (r: seq<int>)
    ensures |r| == pageLength
    ensures forall k :: 0 <= k < |r| ==> r[k] == MarkAt(tables, pageOffset + k)
    ensures forall k :: 0 <= k < |r| ==> -1 <= r[k] < |tables|
  {
    seq(pageLength, idx => MarkAt(tables, pageOffset + idx))
  }

  lemma MarkAtNext(tables: seq<Table>, n: int, position: int)
    requires 0 <= n < |tables|
    ensures MarkAt(tables[..n + 1], position)
      == if TableCovers(tables[n], position) then n else MarkAt(tables[..n], position)
  {
    assert tables[..n + 1][..n] == tables[..n];
  }

  /** Fills `table_chars`: every position covered by a span of a table of the
      page gets that table's index, later tables overwriting earlier ones. */
  method MarkTableChars(tables: seq<Table>, pageOffset: int, pageLength: nat) returns (tableChars: array<int>)
    ensures fresh(tableChars)
    ensures tableChars[..] == Marks(tables, pageOffset, pageLength)
  {
    tableChars := new int[pageLength](_ => -1);
    for tableId := 0 to |tables|
      invariant forall idx :: 0 <= idx < pageLength ==> tableChars[idx] == MarkAt(tables[..tableId], pageOffset + idx)
    {
      var table := tables[tableId];
      for s := 0 to |table.spans|
        invariant forall idx :: 0 <= idx < pageLength ==>
          tableChars[idx] == if CoveredAt(table.spans[..s], pageOffset, idx) then tableId
                             else MarkAt(tables[..tableId], pageOffset + idx)
      {
        var span := table.spans[s];
        for i := 0 to span.length
          invariant forall idx :: 0 <= idx < pageLength ==>
            tableChars[idx] == if CoveredAt(table.spans[..s], pageOffset, idx)
                                  || span.offset <= pageOffset + idx < span.offset + i then tableId
                               else MarkAt(tables[..tableId], pageOffset + idx)
        {
          var idx := span.offset - pageOffset + i;
          if idx >= 0 && idx < pageLength {
            tableChars[idx] := tableId;
          }
        }
        forall idx: int | 0 <= idx < pageLength
          ensures CoveredAt(table.spans[..s + 1], pageOffset, idx)
            <==> CoveredAt(table.spans[..s], pageOffset, idx) || SpanCovers(span, pageOffset + idx)
        {
          CoveredAtNext(table.spans, s, pageOffset, idx);
        }
      }
      assert table.spans[..|table.spans|] == table.spans;
      forall idx | 0 <= idx < pageLength
        ensures tableChars[idx] == MarkAt(tables[..tableId + 1], pageOffset + idx)
      {
        MarkAtNext(tables, tableId, pageOffset + idx);
      }
    }
    assert tables[..|tables|] == tables;
  }

  /** Every mark names a table of the page or is -1, and every unmarked
      position lies inside the content. */
  predicate ValidMarks(content: string, pageOffset: int, marks: seq<int>, tables: seq<Table>)
  {
    forall k :: 0 <= k < |marks| ==>
      -1 <= marks[k] < |tables| && (marks[k] == -1 ==> 0 <= pageOffset + k < |content|)
  }

  /** The tables marked at positions `0 .. n - 1`. */
  function Seen(marks: seq<int>, n: nat): set<int>
    requires n <= |marks|
  {
    if n == 0 then {} else Seen(marks, n - 1) + (if marks[n - 1] == -1 then {} else {marks[n - 1]})
  }

  lemma {:induction false} SeenMeaning(marks: seq<int>, n: nat, t: int)
    requires n <= |marks|
    ensures t in Seen(marks, n) <==> t != -1 && t in marks[..n]
  {
    if n > 0 {
      SeenMeaning(marks, n - 1, t);
      assert marks[..n] == marks[..n - 1] + [marks[n - 1]];
    }
  }

  /** What position `idx` of the page contributes: the content character when
      it is unmarked, the table's HTML at the first position marked with that
      table, and nothing at the table's later positions. */
  function Piece(content: string, pageOffset: int, marks: seq<int>, tables: seq<Table>, idx: int): string
    requires 0 <= idx < |marks|
    requires ValidMarks(content, pageOffset, marks, tables)
  {
    if marks[idx] == -1 then [content[pageOffset + idx]]
    else if marks[idx] !in Seen(marks, idx) then TableHtml(tables[marks[idx]])
    else ""
  }

  /** The contributions of positions `0 .. n - 1`, in order. */
  function PageBody(content: string, pageOffset: int, marks: seq<int>, tables: seq<Table>, n: nat): string
    requires n <= |marks|
    requires ValidMarks(content, pageOffset, marks, tables)
  {
    if n == 0 then "" else PageBody(content, pageOffset, marks, tables, n - 1) + Piece(content, pageOffset, marks, tables, n - 1)
  }

  /** The inner loop of `get_document_text` that builds one page's text; the
      set `added` holds the tables already written. */
  method BuildPageText(content: string, pageOffset: int, marks: seq<int>, tables: seq<Table>) returns (pageText: string)
    requires ValidMarks(content, pageOffset, marks, tables)
    ensures pageText == PageBody(content, pageOffset, marks, tables, |marks|) + " "
  {
    pageText := "";
    var added: set<int> := {};
    for idx := 0 to |marks|
      invariant pageText == PageBody(content, pageOffset, marks, tables, idx)
      invariant added == Seen(marks, idx)
    {
      var tableId := marks[idx];
      assert Seen(marks, idx + 1) == added + (if tableId == -1 then {} else {tableId});
      var piece: string;
      if tableId == -1 {
        piece := [content[pageOffset + idx]];
      } else if tableId !in added {
        piece := TableToHtml(tables[tableId]);
        added := added + {tableId};
      } else {
        piece := "";
      }
      assert piece == Piece(content, pageOffset, marks, tables, idx);
      pageText := pageText + piece;
    }
    pageText := pageText + " ";
  }

  /** The text of page `i` (0-based) of an analysis result. */
  function PageText(result: AnalyzeResult, i: int): string
    requires 0 <= i < |result.pages|
    requires WithinContent(result)
  {
    var span := result.pages[i].span;
    var tables := TablesOnPage(result.tables, i + 1);
    var marks := Marks(tables, span.offset, span.length);
    assert ValidMarks(result.content, span.offset, marks, tables) by {
      assert WithinContent(result) && result.pages[i].span == span;
    }
    PageBody(result.content, span.offset, marks, tables, span.length) + " "
  }

  /** The body of the page loop of `get_document_text`: the page's tables,
      their marks, and the page text built from them. */
  method ExtractPageText(result: AnalyzeResult, pageNum: nat) returns (pageText: string)
    requires pageNum < |result.pages|
    requires WithinContent(result)
    ensures pageText == PageText(result, pageNum)
  {
    var page := result.pages[pageNum];
    var tablesOnPage := TablesOnPage(result.tables, pageNum + 1);
    var pageOffset := page.span.offset;
    var pageLength := page.span.length;
    var tableChars := MarkTableChars(tablesOnPage, pageOffset, pageLength);
    var marks := tableChars[..];
    assert 0 <= pageOffset && pageOffset + pageLength <= |result.content| by {
      assert WithinContent(result);
    }
    pageText := BuildPageText(result.content, pageOffset, marks, tablesOnPage);
  }

  /** The page map of a sequence of page texts: page `i` is numbered `i`,
      has text `texts[i]` and starts where the earlier texts end. */
  function PagesOf(texts: seq<string>): (r: seq<Page>)
    ensures |r| == |texts|
    decreases |texts|
  {
    if texts == [] then []
    else
      var before := PagesOf(texts[..|texts| - 1]);
      before + [Page(|texts| - 1, |AllText(before)|, texts[|texts| - 1])]
  }

  function PageTexts(result: AnalyzeResult): (r: seq<string>)
    requires WithinContent(result)
    ensures |r| == |result.pages|
  {
    seq(|result.pages|, i requires 0 <= i < |result.pages| => PageText(result, i))
  }

  function PageMap(result: AnalyzeResult): seq<Page>
    requires WithinContent(result)
  {
    PagesOf(PageTexts(result))
  }

  /** `get_document_text` minus the call to the recognizer: one page entry
      per recognized page, numbered from 0, whose offsets are the running
      total of the earlier pages' text lengths. */
  method GetDocumentText(result: AnalyzeResult) returns (pageMap: seq<Page>)
    requires WithinContent(result)
    ensures pageMap == PageMap(result)
  {
    var offset := 0;
    pageMap := [];
    ghost var texts := PageTexts(result);
    for pageNum := 0 to |result.pages|
      invariant pageMap == PagesOf(texts[..pageNum])
      invariant offset == |AllText(pageMap)|
    {
      var pageText := ExtractPageText(result, pageNum);
      PagesOfSnoc(texts, pageNum);
      AllTextSnoc(pageMap, Page(pageNum, offset, pageText));
      pageMap := pageMap + [Page(pageNum, offset, pageText)];
      offset := offset + |pageText|;
    }
    assert texts[..|result.pages|] == texts;
  }

  /** One more text adds one page after the others. */
  lemma PagesOfSnoc(texts: seq<string>, n: nat)
    requires n < |texts|
    ensures PagesOf(texts[..n + 1]) == PagesOf(texts[..n]) + [Page(n, |AllText(PagesOf(texts[..n]))|, texts[n])]
  {
    assert texts[..n + 1][..n] == texts[..n];
  }

  lemma AllTextSnoc(pages: seq<Page>, page: Page)
    ensures AllText(pages + [page]) == AllText(pages) + page.pageText
  {
    assert (pages + [page])[..|pages|] == pages;
  }

  lemma {:induction false} PagesOfEntries(texts: seq<string>)
    ensures forall i :: 0 <= i < |texts| ==> PagesOf(texts)[i].pageNum == i && PagesOf(texts)[i].pageText == texts[i]
    decreases |texts|
  {
    if texts != [] {
      var n := |texts|;
      var prefix := texts[..n - 1];
      var before := PagesOf(prefix);
      var pages := PagesOf(texts);
      PagesOfEntries(prefix);
      assert pages == before + [Page(n - 1, |AllText(before)|, texts[n - 1])];
      forall i | 0 <= i < n - 1 ensures pages[i].pageNum == i && pages[i].pageText == texts[i] {
        assert pages[i] == before[i];
        assert prefix[i] == texts[i];
      }
    }
  }

  lemma {:induction false} PagesOfWellFormed(texts: seq<string>)
    ensures WellFormed(PagesOf(texts))
    decreases |texts|
  {
    if texts != [] {
      var n := |texts|;
      var before := PagesOf(texts[..n - 1]);
      PagesOfWellFormed(texts[..n - 1]);
      WellFormedAppend(before, Page(n - 1, |AllText(before)|, texts[n - 1]));
    }
  }

  /** The page map of a result has one entry per recognized page, numbered
      from 0, with each page's text, and its offsets are the running total of
      the earlier pages' text lengths. */
  lemma PageMapShape(result: AnalyzeResult)
    requires WithinContent(result)
    ensures var pages := PageMap(result);
      && |pages| == |result.pages|
      && WellFormed(pages)
      && forall i :: 0 <= i < |pages| ==> pages[i].pageNum == i && pages[i].pageText == PageText(result, i)
  {
    PagesOfEntries(PageTexts(result));
    PagesOfWellFormed(PageTexts(result));
  }

  // ---------------------------------------------------------------------------
  // Properties of the page text

  /** Every table marked somewhere on the page has a first marked position. */
  lemma {:induction false} FirstMarkExists(marks: seq<int>, t: int)
    requires t in marks
    ensures exists idx :: 0 <= idx < |marks| && marks[idx] == t && t !in marks[..idx]
    decreases |marks|
  {
    var n := |marks|;
    if t in marks[..n - 1] {
      FirstMarkExists(marks[..n - 1], t);
      var idx :| 0 <= idx < n - 1 && marks[..n - 1][idx] == t && t !in marks[..n - 1][..idx];
      assert marks[..n - 1][..idx] == marks[..idx];
    } else {
      assert marks == marks[..n - 1] + [marks[n - 1]];
      assert marks[n - 1] == t;
    }
  }

  /** Each table marked on the page is written exactly once: its HTML is the
      piece of exactly one position, the first one it marks. */
  lemma TableWrittenOnce(content: string, pageOffset: int, marks: seq<int>, tables: seq<Table>, t: int)
    requires ValidMarks(content, pageOffset, marks, tables)
    requires t != -1 && t in marks
    ensures exists idx :: (0 <= idx < |marks| && marks[idx] == t
      && Piece(content, pageOffset, marks, tables, idx) == TableHtml(tables[t])
      && forall j :: 0 <= j < |marks| && j != idx && marks[j] == t ==> Piece(content, pageOffset, marks, tables, j) == "")
  {
    FirstMarkExists(marks, t);
    var idx :| 0 <= idx < |marks| && marks[idx] == t && t !in marks[..idx];
    SeenMeaning(marks, idx, t);
    forall j | 0 <= j < idx ensures marks[j] != t {
      assert marks[..idx][j] == marks[j];
    }
    forall j | idx < j < |marks| && marks[j] == t
      ensures Piece(content, pageOffset, marks, tables, j) == ""
    {
      assert marks[..j][idx] == t;
      SeenMeaning(marks, j, t);
    }
  }

  /** A page without tables is its content span followed by a space. */
  lemma {:induction false} UnmarkedPageCopiesContent(content: string, pageOffset: int, marks: seq<int>, tables: seq<Table>, n: nat)
    requires n <= |marks|
    requires forall k :: 0 <= k < |marks| ==> marks[k] == -1
    requires 0 <= pageOffset && pageOffset + |marks| <= |content|
    ensures PageBody(content, pageOffset, marks, tables, n) == content[pageOffset..pageOffset + n]
  {
    if n > 0 {
      UnmarkedPageCopiesContent(content, pageOffset, marks, tables, n - 1);
      assert content[pageOffset..pageOffset + n] == content[pageOffset..pageOffset + n - 1] + [content[pageOffset + n - 1]];
    }
  }

  /** A position is marked with table `t` exactly when `t` is the last
      table of the page covering it, and unmarked when no table covers it. */
  lemma MarksMeaning(tables: seq<Table>, pageOffset: int, pageLength: nat, idx: int)
    requires 0 <= idx < pageLength
    ensures var m := Marks(tables, pageOffset, pageLength)[idx];
      && (m == -1 <==> forall k :: 0 <= k < |tables| ==> !TableCovers(tables[k], pageOffset + idx))
      && (m >= 0 ==> TableCovers(tables[m], pageOffset + idx)
                     && forall k :: m < k < |tables| ==> !TableCovers(tables[k], pageOffset + idx))
  {
  }

  /** The page map of a result with no tables: each page is its content span
      followed by a space. */
  lemma PageWithoutTables(result: AnalyzeResult, i: int)
    requires 0 <= i < |result.pages|
    requires WithinContent(result)
    requires forall k :: 0 <= k < |result.tables| ==> result.tables[k].pageNumber != i + 1
    ensures PageText(result, i)
      == result.content[result.pages[i].span.offset..result.pages[i].span.offset + result.pages[i].span.length] + " "
  {
    var span := result.pages[i].span;
    var tables := TablesOnPage(result.tables, i + 1);
    NoTablesOnPage(result.tables, i + 1);
    UnmarkedPageCopiesContent(result.content, span.offset, Marks(tables, span.offset, span.length), tables, span.length);
  }

  // ---------------------------------------------------------------------------
  // index_document

  /** This pipeline names a section's source page after the page of its
      start, with `blob_name_from_file_page`. */
  function PageSource(filename: string): SourcePager
  {
    (i: nat, chunk: Chunk) => BlobNameFromFilePage(filename, chunk.page)
  }

  /** A file name without exactly one '.' raises as soon as there is a
      section; with no sections nothing is built and nothing raises. */
  lemma SectionDocsBadName(fields: Fields, filename: string, embed: Embedder, chunks: seq<Chunk>)
    requires CountChar(filename, '.') != 1
    ensures SectionDocs(fields, PageSource(filename), embed, chunks) == if chunks == [] then Ok([]) else Err(ValueErrorName)
  {
    SectionDocsUnnamed(fields, PageSource(filename), embed, chunks);
  }

  /** The file id is made of hexadecimal digits only. */
  lemma FileIdHasNoDash(filename: string)
    ensures NoChar(Utils.FilenameToId(filename), '-')
  {
  }

  // ---------------------------------------------------------------------------
  // upload_blobs

  /** A stored page blob: its text and its `id` metadata. */
  datatype Blob = Blob(text: string, fileId: string)

  type BlobStore = map<string, Blob>

  /** The store after uploading every page, later pages overwriting earlier
      ones of the same name; the file name has exactly one '.'. */
  function StoreBlobs(store: BlobStore, filename: string, fileId: string, pages: seq<Page>): BlobStore
    requires CountChar(filename, '.') == 1
    decreases |pages|
  {
    if pages == [] then store
    else
      var n := |pages| - 1;
      StoreBlobs(store, filename, fileId, pages[..n])[BlobNameFromFilePage(filename, pages[n].pageNum).value := Blob(pages[n].pageText, fileId)]
  }

  /** `upload_blobs`: one blob per page, named after the page number. A file
      name without exactly one '.' makes the first page raise, so that nothing
      is stored. */
  method UploadBlobs(store: BlobStore, filename: string, pages: seq<Page>, fileId: string) returns (r: Result<BlobStore>)
    ensures CountChar(filename, '.') == 1 ==> r == Ok(StoreBlobs(store, filename, fileId, pages))
    ensures CountChar(filename, '.') != 1 ==> r == if pages == [] then Ok(store) else Err(ValueErrorName)
  {
    var updated := store;
    for i := 0 to |pages|
      invariant CountChar(filename, '.') == 1 ==> updated == StoreBlobs(store, filename, fileId, pages[..i])
      invariant CountChar(filename, '.') != 1 ==> i == 0 && updated == store
    {
      assert pages[..i + 1][..i] == pages[..i];
      var blobName := BlobNameFromFilePage(filename, pages[i].pageNum);
      if blobName.None? {
        return Err(ValueErrorName);
      }
      updated := updated[blobName.value := Blob(pages[i].pageText, fileId)];
    }
    assert pages[..|pages|] == pages;
    r := Ok(updated);
  }

  /** Distinct page numbers give distinct blob names. */
  lemma BlobNameInjective(filename: string, p: int, q: int)
    requires CountChar(filename, '.') == 1
    requires BlobNameFromFilePage(filename, p) == BlobNameFromFilePage(filename, q)
    ensures p == q
  {
    var stem := Split(filename, '.')[0];
    var a := stem + "-page" + IntToString(p) + ".txt";
    var b := stem + "-page" + IntToString(q) + ".txt";
    assert a == b;
    var k := |stem + "-page"|;
    assert |IntToString(p)| == |IntToString(q)| by {
      assert |a| == k + |IntToString(p)| + 4;
    }
    assert a[k..k + |IntToString(p)|] == IntToString(p);
    assert b[k..k + |IntToString(q)|] == IntToString(q);
    IntToStringInjective(p, q);
  }

  /** The page's blob holds its text and the file id. */
  predicate HoldsText(store: BlobStore, filename: string, fileId: string, page: Page)
    requires CountChar(filename, '.') == 1
  {
    Lookup(store, BlobNameFromFilePage(filename, page.pageNum).value) == Some(Blob(page.pageText, fileId))
  }

  lemma {:induction false} StoredBlobsHoldPages(store: BlobStore, filename: string, fileId: string, pages: seq<Page>)
    requires CountChar(filename, '.') == 1
    requires forall j, k :: 0 <= j < k < |pages| ==> pages[j].pageNum != pages[k].pageNum
    ensures forall k :: 0 <= k < |pages| ==> HoldsText(StoreBlobs(store, filename, fileId, pages), filename, fileId, pages[k])
    decreases |pages|
  {
    if pages != [] {
      var n := |pages| - 1;
      StoredBlobsHoldPages(store, filename, fileId, pages[..n]);
      assert forall k :: 0 <= k < n ==> pages[..n][k] == pages[k];
      StoreBlobHoldsAll(StoreBlobs(store, filename, fileId, pages[..n]), filename, fileId, pages);
    }
  }

  /** Storing the last page keeps the earlier pages' blobs and adds its own. */
  lemma StoreBlobHoldsAll(before: BlobStore, filename: string, fileId: string, pages: seq<Page>)
    requires CountChar(filename, '.') == 1 && pages != []
    requires forall j, k :: 0 <= j < k < |pages| ==> pages[j].pageNum != pages[k].pageNum
    requires forall k :: 0 <= k < |pages| - 1 ==> HoldsText(before, filename, fileId, pages[k])
    ensures var last := pages[|pages| - 1];
      var after := before[BlobNameFromFilePage(filename, last.pageNum).value := Blob(last.pageText, fileId)];
      forall k :: 0 <= k < |pages| ==> HoldsText(after, filename, fileId, pages[k])
  {
    var n := |pages| - 1;
    var after := before[BlobNameFromFilePage(filename, pages[n].pageNum).value := Blob(pages[n].pageText, fileId)];
    forall k | 0 <= k < |pages| ensures HoldsText(after, filename, fileId, pages[k]) {
      if k < n {
        if BlobNameFromFilePage(filename, pages[k].pageNum) == BlobNameFromFilePage(filename, pages[n].pageNum) {
          BlobNameInjective(filename, pages[k].pageNum, pages[n].pageNum);
        }
      } else {
        assert k == n;
      }
    }
  }

  /** A name that is no page's blob name keeps what it held, or stays
      absent. */
  lemma {:induction false} StoreBlobsKeepsOthers(store: BlobStore, filename: string, fileId: string, pages: seq<Page>, name: string)
    requires CountChar(filename, '.') == 1
    requires forall k :: 0 <= k < |pages| ==> BlobNameFromFilePage(filename, pages[k].pageNum) != Some(name)
    ensures Lookup(StoreBlobs(store, filename, fileId, pages), name) == Lookup(store, name)
    decreases |pages|
  {
    if pages != [] {
      var n := |pages| - 1;
      forall k | 0 <= k < n ensures BlobNameFromFilePage(filename, pages[..n][k].pageNum) != Some(name) {
        assert pages[..n][k] == pages[k];
      }
      StoreBlobsKeepsOthers(store, filename, fileId, pages[..n], name);
      StoreBlobKeepsOthers(StoreBlobs(store, filename, fileId, pages[..n]), filename, fileId, pages[n], name);
    }
  }

  lemma StoreBlobKeepsOthers(before: BlobStore, filename: string, fileId: string, page: Page, name: string)
    requires CountChar(filename, '.') == 1 && BlobNameFromFilePage(filename, page.pageNum) != Some(name)
    ensures Lookup(before[BlobNameFromFilePage(filename, page.pageNum).value := Blob(page.pageText, fileId)], name) == Lookup(before, name)
  {
  }

  // ---------------------------------------------------------------------------
  // run

  /** The fields of the content sections. */
  function ContentFields(filename: string, summary: Summary): Fields
  {
    Fields(summary.title, summary.category, filename, Utils.FilenameToId(filename), PageTag, false, None)
  }

  /** The fields of the summary sections: the same ids `{file_id}-page-{i}`
      as the content sections. */
  function SummaryFields(filename: string, summary: Summary): Fields
  {
    Fields(summary.title, summary.category, filename, Utils.FilenameToId(filename), PageTag, true, None)
  }

  /** The effect of `run` on the blob store and the index, and its result.
      Steps that raise leave the later steps undone. */
  function RunEffect(filename: string, analysis: AnalyzeResult, summary: Summary, store: BlobStore, index: Index,
                     embed: Embedder): (Result<RunOutput>, BlobStore, Index)
    requires WithinContent(analysis)
  {
    var fileId := Utils.FilenameToId(filename);
    var pageMap := PageMap(analysis);
    if CountChar(filename, '.') != 1 && pageMap != [] then (Err(ValueErrorName), store, index)
    else
      var stored := if CountChar(filename, '.') == 1 then StoreBlobs(store, filename, fileId, pageMap) else store;
      match SectionDocs(ContentFields(filename, summary), PageSource(filename), embed, Sections(pageMap))
      case Err(e) => (Err(e), stored, index)
      case Ok(docs) =>
        var indexed := Upload(index, docs);
        match SectionDocs(SummaryFields(filename, summary), PageSource(filename), embed, Sections(SummaryPages(summary)))
        case Err(e) => (Err(e), stored, indexed)
        case Ok(summaryDocs) =>
          (Ok(RunOutput(summary.title, summary.category, summary.summary, filename, fileId)), stored, Upload(indexed, summaryDocs))
  }

  /** `run`: the file id; the page map; the page blobs; the content sections;
      the summary sections. Downloading the file and summarizing it are
      inputs here (`analysis`, `summary`). */
  method Run(filename: string, analysis: AnalyzeResult, summary: Summary, store: BlobStore, index: Index, embed: Embedder)
    returns (r: Result<RunOutput>, newStore: BlobStore, newIndex: Index)
    requires WithinContent(analysis)
    ensures (r, newStore, newIndex) == RunEffect(filename, analysis, summary, store, index, embed)
  {
    var fileId := Utils.FilenameToId(filename);
    var pageMap := GetDocumentText(analysis);
    var uploaded := UploadBlobs(store, filename, pageMap, fileId);
    if uploaded.Err? {
      return Err(uploaded.error), store, index;
    }
    newStore := uploaded.value;
    var content := IndexDocument(index, ContentFields(filename, summary), PageSource(filename), embed, pageMap);
    if content.Err? {
      return Err(content.error), newStore, index;
    }
    newIndex := content.value;
    var summarized := IndexDocument(newIndex, SummaryFields(filename, summary), PageSource(filename), embed, SummaryPages(summary));
    if summarized.Err? {
      return Err(summarized.error), newStore, newIndex;
    }
    newIndex := summarized.value;
    r := Ok(RunOutput(summary.title, summary.category, summary.summary, filename, fileId));
  }

  /** A successful run leaves every summary section under its own id; it
      replaces content section `k` by summary section `k` for every `k` the
      summary has, and keeps the file's other content sections. */
  lemma RunSummaryOverwritesContent(filename: string, analysis: AnalyzeResult, summary: Summary, store: BlobStore,
                                    index: Index, embed: Embedder)
    requires WithinContent(analysis)
    requires RunEffect(filename, analysis, summary, store, index, embed).0.Ok?
    ensures var docs := SectionDocs(ContentFields(filename, summary), PageSource(filename), embed, Sections(PageMap(analysis))).value;
      var summaryDocs := SectionDocs(SummaryFields(filename, summary), PageSource(filename), embed, Sections(SummaryPages(summary))).value;
      var final := RunEffect(filename, analysis, summary, store, index, embed).2;
      && (forall k :: 0 <= k < |summaryDocs| ==> summaryDocs[k].id in final && final[summaryDocs[k].id] == summaryDocs[k])
      && (forall k :: 0 <= k < |docs| && k < |summaryDocs| ==>
            docs[k].id == summaryDocs[k].id && final[docs[k].id] == summaryDocs[k] && final[docs[k].id] != docs[k])
      && (forall k :: |summaryDocs| <= k < |docs| ==> docs[k].id in final && final[docs[k].id] == docs[k])
  {
    FileIdHasNoDash(filename);
    SummaryOverwritesContentAsWritten(index, ContentFields(filename, summary), SummaryFields(filename, summary), PageSource(filename),
                                      PageSource(filename), embed, Sections(PageMap(analysis)), Sections(SummaryPages(summary)));
  }
}
