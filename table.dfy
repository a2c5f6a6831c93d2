/** `_convert_table_to_markdown` and `_extract_tables`: a grid of cells as
    extracted from one PDF page, turned into a pipe-delimited Markdown table. */
module TableFormat {
  import opened Outcomes
  import opened Text

  /** A table cell as the PDF parser reports it: some text, or Python's None. */
  datatype Cell = Present(text: string) | Null

  /** Rows of cells; the first row is the header. */
  type Grid = seq<seq<Cell>>

  /** Python's `str(cell)`. */
  function CellString(c: Cell): string
  {
    match c
    case Present(t) => t
    case Null => "None"
  }

  /** Python's `str(cell) for cell in row`. */
  function Render(row: seq<Cell>): seq<string>
  {
    seq(|row|, i requires 0 <= i < |row| => CellString(row[i]))
  }

  /** The header cells as `join` takes them: their texts, or None when
      `join` raises because a cell is None. */
  function HeaderStrings(header: seq<Cell>): (r: Option<seq<string>>)
    ensures r.Some? <==> Null !in header
    ensures r.Some? ==> r.value == Render(header)
    decreases |header|
  {
    if header == [] then Some([])
    else
      var init := header[..|header| - 1];
      assert header == init + [header[|header| - 1]];
      match (HeaderStrings(init), header[|header| - 1])
      case (None, _) => None
      case (_, Null) => None
      case (Some(done), Present(t)) => Some(done + [t])
  }

  /** One table line, without its newline: `"| " + " | ".join(cells) + " |"`. */
  function Line(cells: seq<string>): string
  {
    "| " + Join(" | ", cells) + " |"
  }

  /** The cells of the separator row under a header of `width` cells: `["---"] * width`. */
  function SeparatorCells(width: nat): seq<string>
  {
    Repeat("---", width)
  }

  /** The data-row lines of the table, in row order, as the loop appends them. */
  function DataLines(rows: seq<seq<Cell>>): string
    decreases |rows|
  {
    if rows == [] then ""
    else DataLines(rows[..|rows| - 1]) + Line(Render(rows[|rows| - 1])) + "\n"
  }

  /** What `_convert_table_to_markdown(table)` returns, or the exception it raises. */
  function TableMarkdown(table: Grid): (r: Result<string>)
    ensures r.Err? <==> table != [] && Null in table[0]
    ensures r == Ok("") <==> table == []
  {
    if table == [] then Ok("")
    else match HeaderStrings(table[0])
      case None => Err(HeaderCellIsNone)
      case Some(header) =>
        Ok(Line(header) + "\n" + Line(SeparatorCells(|header|)) + "\n" + DataLines(table[1..]))
  }

  /** `_convert_table_to_markdown`: the header line, the separator line, then
      one line per data row, grown line by line. */
  method ConvertTableToMarkdown(table: Grid) returns (r: Result<string>)
    ensures r == TableMarkdown(table)
  {
    if |table| == 0 {
      return Ok("");
    }
    var headers := HeaderStrings(table[0]);
    if headers.None? {
      return Err(HeaderCellIsNone);
    }
    var md := Line(headers.value) + "\n";
    md := md + Line(Repeat("---", |headers.value|)) + "\n";
    ghost var top := md;
    var i := 1;
    while i < |table|
      invariant 1 <= i <= |table|
      invariant md == top + DataLines(table[1..i])
    {
      DataLinesStep(table, i);
      md := md + Line(Render(table[i])) + "\n";
      i := i + 1;
    }
    assert table[1..i] == table[1..];
    TableOfHeader(table);
    return Ok(md);
  }

  lemma {:induction false} DataLinesStep(table: Grid, i: nat)
    requires 1 <= i < |table|
    ensures DataLines(table[1..i + 1]) == DataLines(table[1..i]) + Line(Render(table[i])) + "\n"
  {
    assert table[1..i + 1][..i - 1] == table[1..i];
  }

  /** The lines of the table for a header and its data rows, without their newlines. */
  function TableLines(header: seq<string>, rows: seq<seq<Cell>>): seq<string>
  {
    [Line(header), Line(SeparatorCells(|header|))] + seq(|rows|, k requires 0 <= k < |rows| => Line(Render(rows[k])))
  }

  /** No cell of the grid renders to a text containing a newline. */
  predicate NoNewlines(table: Grid)
  {
    forall r, c :: 0 <= r < |table| && 0 <= c < |table[r]| ==> '\n' !in CellString(table[r][c])
  }

  lemma {:induction false} DataLinesTerminated(rows: seq<seq<Cell>>)
    ensures DataLines(rows) == Terminated(seq(|rows|, k requires 0 <= k < |rows| => Line(Render(rows[k]))), "\n")
    decreases |rows|
  {
    var lines := seq(|rows|, k requires 0 <= k < |rows| => Line(Render(rows[k])));
    if rows != [] {
      var init := rows[..|rows| - 1];
      DataLinesTerminated(init);
      assert lines[..|lines| - 1] == seq(|init|, k requires 0 <= k < |init| => Line(Render(init[k])));
    }
  }

  /** A table whose header has no None cell is exactly its lines, each followed
      by a newline: header, separator, then every data row in order. */
  lemma {:induction false} TableIsItsLines(table: Grid)
    requires table != [] && Null !in table[0]
    ensures TableMarkdown(table) == Ok(Terminated(TableLines(Render(table[0]), table[1..]), "\n"))
  {
    var header := Render(table[0]);
    var rows := table[1..];
    var top := [Line(header), Line(SeparatorCells(|header|))];
    var dataLines := seq(|rows|, k requires 0 <= k < |rows| => Line(Render(rows[k])));
    TableOfHeader(table);
    DataLinesTerminated(rows);
    TerminatedAppend(top, dataLines, "\n");
    TerminatedPair(top[0], top[1], "\n");
  }

  /** Unfolds the formatter for a grid whose header has no None cell. */
  lemma {:induction false} TableOfHeader(table: Grid)
    requires table != [] && Null !in table[0]
    ensures TableMarkdown(table) ==
              Ok(Line(Render(table[0])) + "\n" + Line(SeparatorCells(|table[0]|)) + "\n" + DataLines(table[1..]))
    ensures TableMarkdown(table) ==
              Ok((Line(Render(table[0])) + "\n") + (Line(SeparatorCells(|table[0]|)) + "\n") + DataLines(table[1..]))
  {
    assert HeaderStrings(table[0]) == Some(Render(table[0]));
    var a, b := Line(Render(table[0])), Line(SeparatorCells(|table[0]|));
    assert a + "\n" + b + "\n" == (a + "\n") + (b + "\n");
  }

  lemma {:induction false} TerminatedPair(a: string, b: string, term: string)
    ensures Terminated([a, b], term) == a + term + b + term
  {
    assert [a, b][..1] == [a];
    assert [a][..0] == [];
    assert Terminated([a], term) == "" + a + term;
    assert Terminated([a, b], term) == Terminated([a], term) + b + term;
  }

  lemma {:induction false} LineAvoidsNewline(cells: seq<string>)
    requires forall i :: 0 <= i < |cells| ==> '\n' !in cells[i]
    ensures '\n' !in Line(cells)
  {
    JoinAvoids('\n', " | ", cells);
  }

  /** Line count and order: when no cell holds a newline, a table of n rows
      splits into exactly n + 1 lines, the header line, the separator line and
      each data row's own line in the original row order. */
  lemma {:induction false} TableLineStructure(table: Grid)
    requires table != [] && Null !in table[0] && NoNewlines(table)
    ensures TableMarkdown(table).Ok?
    ensures SplitLines(TableMarkdown(table).value) == TableLines(Render(table[0]), table[1..])
    ensures |SplitLines(TableMarkdown(table).value)| == |table| + 1
  {
    var header := Render(table[0]);
    var lines := TableLines(header, table[1..]);
    forall i | 0 <= i < |lines|
      ensures '\n' !in lines[i]
    {
      if i == 0 {
        LineAvoidsNewline(header);
      } else if i == 1 {
        LineAvoidsNewline(SeparatorCells(|header|));
      } else {
        LineAvoidsNewline(Render(table[i - 1]));
      }
    }
    TableIsItsLines(table);
    SplitTerminatedLines(lines);
  }

  /** Separator width: under a non-empty header of n cells the separator line is
      `|` followed by n cells ` --- |`, whatever the data rows are. */
  lemma {:induction false} SeparatorShape(width: nat)
    requires width > 0
    ensures Line(SeparatorCells(width)) == "|" + Terminated(Repeat(" ---", width), " |")
    ensures |Line(SeparatorCells(width))| == 6 * width + 1
    decreases width
  {
    if width == 1 {
      assert Repeat(" ---", 1)[..0] == [];
      assert Join(" | ", SeparatorCells(1)) == "---";
    } else {
      SeparatorShape(width - 1);
      var j := Join(" | ", SeparatorCells(width - 1));
      var t := Terminated(Repeat(" ---", width - 1), " |");
      assert SeparatorCells(width)[..width - 1] == SeparatorCells(width - 1);
      assert Repeat(" ---", width)[..width - 1] == Repeat(" ---", width - 1);
      assert Join(" | ", SeparatorCells(width)) == j + " | " + "---";
      assert Terminated(Repeat(" ---", width), " |") == t + " ---" + " |";
      calc {
        Line(SeparatorCells(width));
        "| " + (j + " | " + "---") + " |";
        ("| " + j + " |") + " --- |";
        ("|" + t) + " --- |";
        "|" + (t + " ---" + " |");
      }
    }
  }

  /** No padding or truncation: a data row's line holds that row's own cells,
      so its length depends on the row alone, not on the header's width. */
  lemma {:induction false} RowLineLength(row: seq<Cell>)
    ensures |Line(Render(row))| == if row == [] then 4 else TotalLength(Render(row)) + 3 * |row| + 1
  {
    if row != [] {
      JoinLength(" | ", Render(row));
    }
  }

  /** A header-only table is its header line and its separator line, no data rows. */
  lemma {:induction false} HeaderOnlyTable(a: string, b: string)
    ensures TableMarkdown([[Present(a), Present(b)]]) == Ok("| " + a + " | " + b + " |\n" + "| --- | --- |\n")
  {
    var table := [[Present(a), Present(b)]];
    TableOfHeader(table);
    assert table[1..] == [];
    var h := "| " + a + " | " + b;
    assert Line(Render(table[0])) + "\n" == h + " |\n" by {
      PairLine(Present(a), Present(b));
    }
    assert Line(SeparatorCells(2)) + "\n" == "| --- | --- |\n" by {
      SeparatorTwo();
    }
    assert DataLines(table[1..]) == "";
    var t := h + " |\n" + "| --- | --- |\n";
    assert t + "" == t;
  }

  /** A two-row table: header line, separator line and one data-row line. */
  lemma {:induction false} HeaderAndRowTable(h1: string, h2: string, d1: string, d2: string)
    ensures TableMarkdown([[Present(h1), Present(h2)], [Present(d1), Present(d2)]])
            == Ok(("| " + h1 + " | " + h2 + " |\n") + "| --- | --- |\n" + ("| " + d1 + " | " + d2 + " |\n"))
  {
    var table := [[Present(h1), Present(h2)], [Present(d1), Present(d2)]];
    TableOfHeader(table);
    var h := "| " + h1 + " | " + h2;
    var d := "| " + d1 + " | " + d2;
    assert Line(Render(table[0])) + "\n" == h + " |\n" by {
      PairLine(Present(h1), Present(h2));
    }
    assert Line(SeparatorCells(2)) + "\n" == "| --- | --- |\n" by {
      SeparatorTwo();
    }
    assert DataLines(table[1..]) == d + " |\n" by {
      PairLine(Present(d1), Present(d2));
      DataOneRow(table[1]);
      assert table[1..] == [table[1]];
    }
  }

  lemma SeparatorTwo()
    ensures Line(SeparatorCells(2)) == "| --- | --- |"
  {
    PairLine(Present("---"), Present("---"));
    assert SeparatorCells(2) == Render([Present("---"), Present("---")]);
    assert "| " + "---" + " | " + "---" + " |" == "| --- | --- |";
  }

  /** A None cell in a data row is written as `None`. */
  lemma {:induction false} NoneDataCell(h: string)
    ensures TableMarkdown([[Present(h)], [Null]]) == Ok("| " + h + " |\n" + "| --- |\n" + "| None |\n")
  {
    var table := [[Present(h)], [Null]];
    TableOfHeader(table);
    assert Line(Render(table[0])) + "\n" == "| " + h + " |\n" by {
      assert Render(table[0]) == [h];
    }
    assert Line(SeparatorCells(1)) + "\n" == "| --- |\n" by {
      assert SeparatorCells(1) == ["---"];
    }
    assert DataLines(table[1..]) == "| None |\n" by {
      DataOneRow([Null]);
      assert table[1..] == [[Null]];
      assert Render([Null]) == ["None"];
    }
  }

  lemma {:induction false} PairLine(x: Cell, y: Cell)
    ensures Line(Render([x, y])) == "| " + CellString(x) + " | " + CellString(y) + " |"
  {
    var r := Render([x, y]);
    assert r == [CellString(x), CellString(y)];
    assert r[..1] == [CellString(x)];
    var j := Join(" | ", r);
    assert Join(" | ", r[..1]) == CellString(x);
    assert j == CellString(x) + " | " + CellString(y);
    assert "| " + j + " |" == "| " + CellString(x) + " | " + CellString(y) + " |";
  }

  lemma {:induction false} DataOneRow(row: seq<Cell>)
    ensures DataLines([row]) == Line(Render(row)) + "\n"
  {
    assert [row][..0] == [];
  }

  /** Formats the grids in order; the first one that raises stops the loop. */
  function FormatAll(grids: seq<Grid>): Result<seq<string>>
    decreases |grids|
  {
    if grids == [] then Ok([])
    else match (FormatAll(grids[..|grids| - 1]), TableMarkdown(grids[|grids| - 1]))
      case (Err(e), _) => Err(e)
      case (_, Err(e)) => Err(e)
      case (Ok(done), Ok(t)) => Ok(done + [t])
  }

  /** What `_extract_tables(page)` returns, given what `page.extract_tables()`
      gave (None when it raised): every exception is caught and gives `[]`. */
  function PageTables(extracted: Option<seq<Grid>>): seq<string>
  {
    match extracted
    case None => []
    case Some(grids) =>
      match FormatAll(grids)
      case Ok(tables) => tables
      case Err(_) => []
  }

  /** Formatting a list of grids succeeds exactly when every grid formats, and
      then gives one table per grid, in the grids' order. */
  lemma {:induction false} FormatAllSpec(grids: seq<Grid>)
    ensures FormatAll(grids).Ok? <==> forall i :: 0 <= i < |grids| ==> TableMarkdown(grids[i]).Ok?
    ensures FormatAll(grids).Ok? ==>
              |FormatAll(grids).value| == |grids| &&
              forall i :: 0 <= i < |grids| ==> FormatAll(grids).value[i] == TableMarkdown(grids[i]).value
    decreases |grids|
  {
    if grids != [] {
      var init := grids[..|grids| - 1];
      FormatAllSpec(init);
      assert forall i :: 0 <= i < |init| ==> init[i] == grids[i];
    }
  }

  /** Table mapping: one Markdown table per extracted grid, same count and
      order; `[]` when the extraction raised or some header cell is None. */
  lemma {:induction false} ExtractedTables(extracted: Option<seq<Grid>>)
    ensures extracted.None? ==> PageTables(extracted) == []
    ensures (extracted.Some? &&
             exists i :: 0 <= i < |extracted.value| && TableMarkdown(extracted.value[i]).Err?) ==>
              PageTables(extracted) == []
    ensures (extracted.Some? &&
             forall i :: 0 <= i < |extracted.value| ==> TableMarkdown(extracted.value[i]).Ok?) ==>
              |PageTables(extracted)| == |extracted.value| &&
              forall i :: 0 <= i < |extracted.value| ==>
                PageTables(extracted)[i] == TableMarkdown(extracted.value[i]).value
  {
    if extracted.Some? {
      FormatAllSpec(extracted.value);
    }
  }

  /** `_extract_tables`: formats each extracted grid and appends it to the list. */
  method ExtractTables(extracted: Option<seq<Grid>>) returns (tables: seq<string>)
    ensures tables == PageTables(extracted)
  {
    if extracted.None? {
      return [];
    }
    var grids := extracted.value;
    var markdownTables := [];
    for i := 0 to |grids|
      invariant FormatAll(grids[..i]) == Ok(markdownTables)
    {
      assert grids[..i + 1][..i] == grids[..i];
      var md := ConvertTableToMarkdown(grids[i]);
      if md.Err? {
        FormatAllSpec(grids);
        return [];
      }
      markdownTables := markdownTables + [md.value];
    }
    assert grids[..|grids|] == grids;
    return markdownTables;
  }
}
