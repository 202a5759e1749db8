/**
 The CSV scanner (apps/api/src/imports/product-csv-parser.ts) and the CSV writer
 (apps/api/src/imports/product-csv-serializer.ts), and exactly when one undoes the other.
 */
module Csv {
  import opened Wrappers

  type Row = seq<string>
  type Grid = seq<Row>

  const BOM := '\U{FEFF}'

  // ----- The scanner -----

  datatype State = State(records: Grid, row: Row, cell: string, quoted: bool)

  const START := State([], [], "", false)

  /** What one character does, when it is not the first quote of a doubled one. */
  function Step(s: State, c: char): State {
    if s.quoted then
      if c == '"' then s.(quoted := false) else s.(cell := s.cell + [c])
    else if c == '"' && |s.cell| == 0 then s.(quoted := true)
    else if c == ',' then s.(row := s.row + [s.cell], cell := "")
    else if c == '\n' then State(s.records + [s.row + [s.cell]], [], "", false)
    else s.(cell := s.cell + [c])
  }

  predicate DoubledQuote(s: State, text: string) {
    s.quoted && |text| > 1 && text[0] == '"' && text[1] == '"'
  }

  function Scan(s: State, text: string): State
    decreases text
  {
    if text == "" then s
    else if DoubledQuote(s, text) then Scan(s.(cell := s.cell + "\""), text[2..])
    else Scan(Step(s, text[0]), text[1..])
  }

  /** Every line ending as a line feed. */
  function UnixLines(text: string): string {
    if text == "" then ""
    else if text[0] == '\r' then "\n" + UnixLines(if |text| > 1 && text[1] == '\n' then text[2..] else text[1..])
    else [text[0]] + UnixLines(text[1..])
  }

  function WithoutBom(text: string): string {
    if text != "" && text[0] == BOM then text[1..] else text
  }

  function Finish(s: State): Result<Grid, string> {
    if s.quoted then Failure("CSV contains an unterminated quoted field.")
    else if |s.cell| > 0 || |s.row| > 0 then Success(s.records + [s.row + [s.cell]])
    else Success(s.records)
  }

  function Parsed(content: string): Result<Grid, string> {
    Finish(Scan(START, UnixLines(WithoutBom(content))))
  }

  method ParseCsv(content: string) returns (result: Result<Grid, string>)
    ensures result == Parsed(content)
  {
    var normalized := UnixLines(WithoutBom(content));
    var records: Grid, row: Row, cell: string, quoted := [], [], "", false;
    var index := 0;
    while index < |normalized|
      invariant index <= |normalized|
      invariant Scan(State(records, row, cell, quoted), normalized[index..]) == Scan(START, normalized)
    {
      ghost var rest := normalized[index..];
      assert rest[1..] == normalized[index + 1..];
      var character := normalized[index];
      if quoted {
        if character == '"' && index + 1 < |normalized| && normalized[index + 1] == '"' {
          assert rest[2..] == normalized[index + 2..];
          cell := cell + "\"";
          index := index + 1;
        } else if character == '"' {
          quoted := false;
        } else {
          cell := cell + [character];
        }
      } else if character == '"' && |cell| == 0 {
        quoted := true;
      } else if character == ',' {
        row := row + [cell];
        cell := "";
      } else if character == '\n' {
        row := row + [cell];
        records := records + [row];
        row := [];
        cell := "";
      } else {
        cell := cell + [character];
      }
      index := index + 1;
    }
    if quoted {
      return Failure("CSV contains an unterminated quoted field.");
    }
    if |cell| > 0 || |row| > 0 {
      row := row + [cell];
      records := records + [row];
    }
    return Success(records);
  }

  // ----- The writer -----

  predicate Special(c: char) {
    c == '"' || c == ',' || c == '\n'
  }

  predicate NeedsQuotes(text: string) {
    exists i | 0 <= i < |text| :: Special(text[i])
  }

  function Doubled(text: string): string {
    if text == "" then ""
    else (if text[0] == '"' then "\"\"" else [text[0]]) + Doubled(text[1..])
  }

  function CsvCell(text: string): string {
    if NeedsQuotes(text) then "\"" + Doubled(text) + "\"" else text
  }

  /** The cells of a row, joined by commas. */
  function WriteRow(row: Row): string {
    if row == [] then ""
    else if |row| == 1 then CsvCell(row[0])
    else CsvCell(row[0]) + "," + WriteRow(row[1..])
  }

  /** The rows of a grid, joined by line feeds. */
  function Write(grid: Grid): string {
    if grid == [] then ""
    else if |grid| == 1 then WriteRow(grid[0])
    else WriteRow(grid[0]) + "\n" + Write(grid[1..])
  }

  // ----- Scanning what was written -----

  lemma {:induction false} ScanPlain(s: State, text: string, rest: string)
    requires !s.quoted && !NeedsQuotes(text)
    ensures Scan(s, text + rest) == Scan(s.(cell := s.cell + text), rest)
    decreases text
  {
    if text == "" {
      assert text + rest == rest && s.cell + text == s.cell;
    } else {
      assert !Special(text[0]) && forall i | 0 <= i < |text[1..]| :: text[1..][i] == text[i + 1];
      assert (text + rest)[1..] == text[1..] + rest;
      ScanPlain(s.(cell := s.cell + [text[0]]), text[1..], rest);
      assert s.cell + [text[0]] + text[1..] == s.cell + text;
    }
  }

  lemma {:induction false} ScanDoubled(s: State, text: string, rest: string)
    requires s.quoted && (rest != "" ==> rest[0] != '"')
    ensures Scan(s, Doubled(text) + "\"" + rest) == Scan(s.(cell := s.cell + text, quoted := false), rest)
    decreases text
  {
    var all := Doubled(text) + "\"" + rest;
    if text == "" {
      assert all == "\"" + rest && all[1..] == rest && s.cell + text == s.cell;
    } else {
      var more := Doubled(text[1..]) + "\"" + rest;
      if text[0] == '"' {
        assert all[2..] == more;
      } else {
        assert all[1..] == more;
      }
      ScanDoubled(s.(cell := s.cell + [text[0]]), text[1..], rest);
      assert s.cell + [text[0]] + text[1..] == s.cell + text;
    }
  }

  lemma QuotedCharacter(s: State, c: char, rest: string)
    requires s.quoted
    ensures Scan(s, Doubled([c]) + rest) == Scan(s.(cell := s.cell + [c]), rest)
  {
    var all := Doubled([c]) + rest;
    assert [c][1..] == "" && Doubled("") == "";
    var one := if c == '"' then "\"\"" else [c];
    assert Doubled([c]) == one + "" == one;
    if c == '"' {
      assert all == "\"\"" + rest && all[2..] == rest;
    } else {
      assert all == [c] + rest && all[1..] == rest;
    }
  }

  lemma DoubledFirst(text: string)
    requires text != ""
    ensures Doubled(text) == Doubled([text[0]]) + Doubled(text[1..])
  {
    assert [text[0]][1..] == "" && Doubled("") == "";
    var one := if text[0] == '"' then "\"\"" else [text[0]];
    assert Doubled([text[0]]) == one + "" == one;
  }

  lemma ScanNothing(s: State)
    ensures Scan(s, "") == s && Doubled("") == ""
  {
  }

  lemma {:induction false} ScanOpen(s: State, text: string)
    requires s.quoted
    ensures Scan(s, Doubled(text)) == s.(cell := s.cell + text)
    decreases |text|
  {
    hide Scan, Doubled;
    if text == "" {
      ScanNothing(s);
      assert s.cell + text == s.cell;
    } else {
      QuotedCharacter(s, text[0], Doubled(text[1..]));
      DoubledFirst(text);
      ScanOpen(s.(cell := s.cell + [text[0]]), text[1..]);
      assert s.cell + [text[0]] + text[1..] == s.cell + text;
    }
  }

  /** A quote inside a cell that did not start with one is a character like any other. */
  lemma QuoteInsideCell(s: State, text: string, rest: string)
    requires !s.quoted && s.cell == "" && text != "" && !NeedsQuotes(text)
    ensures Scan(s, text + "\"" + rest) == Scan(s.(cell := text + "\""), rest)
  {
    assert text + "\"" + rest == text + ("\"" + rest) && ("\"" + rest)[1..] == rest;
    ScanPlain(s, text, "\"" + rest);
    assert "" + text == text;
  }

  lemma ScanCell(s: State, text: string, rest: string)
    requires !s.quoted && s.cell == "" && (rest != "" ==> rest[0] != '"')
    ensures Scan(s, CsvCell(text) + rest) == Scan(s.(cell := text), rest)
  {
    hide Doubled;
    if NeedsQuotes(text) {
      var all := CsvCell(text) + rest;
      assert all[1..] == Doubled(text) + "\"" + rest;
      ScanDoubled(s.(quoted := true), text, rest);
      assert "" + text == text;
    } else {
      ScanPlain(s, text, rest);
      assert "" + text == text;
    }
  }

  /** A row without cells is written like a row of one empty cell. */
  function AtLeastOneCell(row: Row): Row {
    if row == [] then [""] else row
  }

  lemma ScanShortRow(s: State, row: Row, rest: string)
    requires !s.quoted && s.cell == "" && (rest != "" ==> rest[0] == '\n') && |row| <= 1
    ensures Scan(s, WriteRow(row) + rest) == Scan(s.(cell := AtLeastOneCell(row)[0]), rest)
  {
    if row == [] {
      assert WriteRow(row) + rest == rest;
    } else {
      ScanCell(s, row[0], rest);
    }
  }

  lemma ScanFirstCell(s: State, row: Row, rest: string)
    requires !s.quoted && s.cell == "" && |row| > 1
    ensures Scan(s, WriteRow(row) + rest) == Scan(s.(row := s.row + [row[0]]), WriteRow(row[1..]) + rest)
  {
    hide Scan, CsvCell;
    var after := "," + WriteRow(row[1..]) + rest;
    assert WriteRow(row) + rest == CsvCell(row[0]) + after;
    ScanCell(s, row[0], after);
    assert after[1..] == WriteRow(row[1..]) + rest;
    ScanComma(s.(cell := row[0]), after);
  }

  lemma ScanComma(s: State, text: string)
    requires !s.quoted && text != "" && text[0] == ','
    ensures Scan(s, text) == Scan(s.(row := s.row + [s.cell], cell := ""), text[1..])
  {
  }

  lemma {:induction false} ScanRow(s: State, row: Row, rest: string)
    requires !s.quoted && s.cell == "" && (rest != "" ==> rest[0] == '\n')
    ensures var cells := AtLeastOneCell(row);
            Scan(s, WriteRow(row) + rest) == Scan(s.(row := s.row + cells[..|cells| - 1], cell := cells[|cells| - 1]), rest)
    decreases row
  {
    if |row| <= 1 {
      ScanShortRow(s, row, rest);
      assert s.row + AtLeastOneCell(row)[..0] == s.row;
    } else {
      ScanFirstCell(s, row, rest);
      ScanRow(s.(row := s.row + [row[0]]), row[1..], rest);
      assert s.row + [row[0]] + row[1..][..|row| - 2] == s.row + row[..|row| - 1];
    }
  }

  /** What reading back gives: every row has a cell, and a last row that is one empty cell is lost. */
  function ReadBack(grid: Grid): Grid {
    if grid == [] then []
    else if |grid| == 1 then if AtLeastOneCell(grid[0]) == [""] then [] else [grid[0]]
    else [AtLeastOneCell(grid[0])] + ReadBack(grid[1..])
  }

  lemma WholeRow(row: Row)
    ensures var cells := AtLeastOneCell(row);
            [] + cells[..|cells| - 1] + [cells[|cells| - 1]] == cells
  {
  }

  lemma ScanLine(records: Grid, row: Row, rest: string)
    ensures Scan(State(records, [], "", false), WriteRow(row) + ("\n" + rest))
            == Scan(State(records + [AtLeastOneCell(row)], [], "", false), rest)
  {
    ScanRow(State(records, [], "", false), row, "\n" + rest);
    assert ("\n" + rest)[1..] == rest;
    WholeRow(row);
  }

  lemma ScanLastLine(records: Grid, row: Row)
    ensures Finish(Scan(State(records, [], "", false), WriteRow(row))) == Success(records + ReadBack([row]))
  {
    ScanRow(State(records, [], "", false), row, "");
    assert WriteRow(row) + "" == WriteRow(row);
    WholeRow(row);
    assert records + [] == records;
  }

  lemma {:induction false} ScanGrid(records: Grid, grid: Grid)
    ensures Finish(Scan(State(records, [], "", false), Write(grid))) == Success(records + ReadBack(grid))
    decreases grid
  {
    if grid == [] {
      assert records + ReadBack(grid) == records;
    } else if |grid| == 1 {
      assert grid == [grid[0]];
      ScanLastLine(records, grid[0]);
    } else {
      assert Write(grid) == WriteRow(grid[0]) + ("\n" + Write(grid[1..]));
      ScanLine(records, grid[0], Write(grid[1..]));
      ScanGrid(records + [AtLeastOneCell(grid[0])], grid[1..]);
      assert records + [AtLeastOneCell(grid[0])] + ReadBack(grid[1..]) == records + ReadBack(grid);
    }
  }

  // ----- Carriage returns and the byte-order mark -----

  predicate HasReturn(text: string) {
    '\r' in text
  }

  ghost predicate NoReturns(grid: Grid) {
    forall row | row in grid :: forall cell | cell in row :: !HasReturn(cell)
  }

  lemma {:induction false} UnixLinesHasNoReturn(text: string)
    ensures !HasReturn(UnixLines(text))
  {
    if text != "" {
      if text[0] == '\r' && |text| > 1 && text[1] == '\n' {
        UnixLinesHasNoReturn(text[2..]);
      } else {
        UnixLinesHasNoReturn(text[1..]);
      }
    }
  }

  lemma {:induction false} UnixLinesSame(text: string)
    requires !HasReturn(text)
    ensures UnixLines(text) == text
  {
    if text != "" {
      UnixLinesSame(text[1..]);
    }
  }

  /** Each line ending becomes one line feed: the pair of return and feed as well as a return alone. */
  lemma {:induction false} LineEndings(a: string, b: string)
    requires !HasReturn(a)
    ensures UnixLines(a + "\r\n" + b) == a + "\n" + UnixLines(b)
    ensures b == "" || b[0] != '\n' ==> UnixLines(a + "\r" + b) == a + "\n" + UnixLines(b)
  {
    var pair, single := a + "\r\n" + b, a + "\r" + b;
    if a == "" {
      assert pair[2..] == b && single[1..] == b && pair[1] == '\n';
    } else {
      assert pair[1..] == a[1..] + "\r\n" + b && single[1..] == a[1..] + "\r" + b;
      LineEndings(a[1..], b);
    }
  }

  ghost predicate StateHasNoReturns(s: State) {
    NoReturns(s.records) && (forall cell | cell in s.row :: !HasReturn(cell)) && !HasReturn(s.cell)
  }

  lemma {:induction false} ScanHasNoReturns(s: State, text: string)
    requires StateHasNoReturns(s) && !HasReturn(text)
    ensures StateHasNoReturns(Scan(s, text))
    decreases text
  {
    if text != "" {
      if DoubledQuote(s, text) {
        ScanHasNoReturns(s.(cell := s.cell + "\""), text[2..]);
      } else {
        StepHasNoReturns(s, text[0]);
        ScanHasNoReturns(Step(s, text[0]), text[1..]);
      }
    }
  }

  lemma StepHasNoReturns(s: State, c: char)
    requires StateHasNoReturns(s) && c != '\r'
    ensures StateHasNoReturns(Step(s, c))
  {
  }

  /** No cell that the scanner returns holds a carriage return. */
  lemma ParsedHasNoReturns(content: string)
    ensures Parsed(content).Success? ==> NoReturns(Parsed(content).value)
  {
    UnixLinesHasNoReturn(WithoutBom(content));
    ScanHasNoReturns(START, UnixLines(WithoutBom(content)));
  }

  lemma {:induction false} DoubledHasNoReturn(text: string)
    requires !HasReturn(text)
    ensures !HasReturn(Doubled(text))
  {
    if text != "" {
      DoubledHasNoReturn(text[1..]);
    }
  }

  lemma {:induction false} WriteRowHasNoReturn(row: Row)
    requires forall cell | cell in row :: !HasReturn(cell)
    ensures !HasReturn(WriteRow(row))
  {
    if row != [] {
      DoubledHasNoReturn(row[0]);
      WriteRowHasNoReturn(row[1..]);
    }
  }

  lemma {:induction false} WriteHasNoReturn(grid: Grid)
    requires NoReturns(grid)
    ensures !HasReturn(Write(grid))
  {
    if grid != [] {
      assert grid[0] in grid && forall row | row in grid[1..] :: row in grid;
      WriteRowHasNoReturn(grid[0]);
      WriteHasNoReturn(grid[1..]);
    }
  }

  predicate StartsWithBom(text: string) {
    text != "" && text[0] == BOM
  }

  /** Without carriage returns and a leading byte-order mark, any grid reads back as `ReadBack` says. */
  lemma ParsedWrite(grid: Grid)
    requires NoReturns(grid) && !StartsWithBom(Write(grid))
    ensures Parsed(Write(grid)) == Success(ReadBack(grid))
  {
    WriteHasNoReturn(grid);
    UnixLinesSame(Write(grid));
    ScanGrid([], grid);
    assert [] + ReadBack(grid) == ReadBack(grid);
  }

  /** A grid that reads back as itself: no row is without cells, and the last is not one empty cell. */
  predicate Readable(grid: Grid) {
    (forall i | 0 <= i < |grid| :: grid[i] != []) && (grid != [] ==> grid[|grid| - 1] != [""])
  }

  lemma {:induction false} ReadBackSame(grid: Grid)
    ensures ReadBack(grid) == grid <==> Readable(grid)
    ensures |ReadBack(grid)| <= |grid|
  {
    if |grid| > 1 {
      ReadBackSame(grid[1..]);
      assert grid == [grid[0]] + grid[1..];
      assert grid[1..][|grid| - 2] == grid[|grid| - 1];
    }
  }

  /** The first cell loses a leading byte-order mark. */
  function BomDropped(grid: Grid): Grid
    requires grid != [] && grid[0] != [] && grid[0][0] != ""
  {
    grid[0 := grid[0][0 := grid[0][0][1..]]]
  }

  lemma BomIsInFirstCell(grid: Grid)
    requires StartsWithBom(Write(grid))
    ensures grid != [] && grid[0] != [] && grid[0][0] != "" && grid[0][0][0] == BOM && !NeedsQuotes(grid[0][0])
    ensures Write(BomDropped(grid)) == Write(grid)[1..]
  {
    assert WriteRow(grid[0]) != "" && WriteRow(grid[0])[0] == BOM;
    var cell, row := grid[0][0], grid[0];
    assert CsvCell(cell) != "" && CsvCell(cell)[0] == BOM;
    assert forall i | 0 <= i < |cell[1..]| :: cell[1..][i] == cell[i + 1];
    assert CsvCell(cell[1..]) == CsvCell(cell)[1..];
    var shorter := row[0 := cell[1..]];
    assert shorter[1..] == row[1..] && WriteRow(shorter) == WriteRow(row)[1..];
    assert BomDropped(grid)[1..] == grid[1..];
  }

  lemma BomIsLost(grid: Grid)
    requires NoReturns(grid) && StartsWithBom(Write(grid))
    ensures Parsed(Write(grid)) != Success(grid)
  {
    BomIsInFirstCell(grid);
    var dropped := BomDropped(grid);
    WriteHasNoReturn(grid);
    UnixLinesSame(Write(dropped));
    ScanGrid([], dropped);
    assert [] + ReadBack(dropped) == ReadBack(dropped);
    assert |ReadBack(dropped)| == |grid| ==> ReadBack(dropped)[0][0] != grid[0][0];
  }

  /** Exactly when writing a grid and scanning the text returns the grid. */
  lemma RoundTrip(grid: Grid)
    ensures Parsed(Write(grid)) == Success(grid)
            <==> NoReturns(grid) && !StartsWithBom(Write(grid)) && Readable(grid)
  {
    ParsedHasNoReturns(Write(grid));
    ReadBackSame(grid);
    if NoReturns(grid) {
      if StartsWithBom(Write(grid)) {
        BomIsLost(grid);
      } else {
        ParsedWrite(grid);
      }
    }
  }

  /** Rows that are all followed by more. */
  function Lines(rows: Grid): string {
    if rows == [] then "" else WriteRow(rows[0]) + ("\n" + Lines(rows[1..]))
  }

  function LinesRead(rows: Grid): Grid {
    if rows == [] then [] else [AtLeastOneCell(rows[0])] + LinesRead(rows[1..])
  }

  lemma {:induction false} ScanLines(records: Grid, rows: Grid, rest: string)
    ensures Scan(State(records, [], "", false), Lines(rows) + rest)
            == Scan(State(records + LinesRead(rows), [], "", false), rest)
    decreases |rows|
  {
    hide Scan, WriteRow;
    if rows == [] {
      assert "" + rest == rest && records + [] == records;
    } else {
      var more := Lines(rows[1..]) + rest;
      assert Lines(rows) + rest == WriteRow(rows[0]) + ("\n" + more);
      ScanLine(records, rows[0], more);
      ScanLines(records + [AtLeastOneCell(rows[0])], rows[1..], rest);
      assert records + [AtLeastOneCell(rows[0])] + LinesRead(rows[1..]) == records + LinesRead(rows);
    }
  }

  lemma OpeningQuote(s: State, text: string)
    requires !s.quoted && s.cell == ""
    ensures Scan(s, "\"" + text) == Scan(s.(quoted := true), text)
  {
    assert ("\"" + text)[1..] == text;
  }

  /** A quote that is opened after whole rows and never closed makes the file unreadable. */
  lemma OpenQuoteFails(rows: Grid, text: string, content: string)
    requires content == Lines(rows) + ("\"" + Doubled(text)) && !HasReturn(content) && !StartsWithBom(content)
    ensures Parsed(content).Failure?
  {
    hide Scan, Lines, UnixLines;
    UnixLinesSame(content);
    ScanLines([], rows, "\"" + Doubled(text));
    var s := State([] + LinesRead(rows), [], "", false);
    OpeningQuote(s, Doubled(text));
    ScanOpen(s.(quoted := true), text);
  }

  /** A carriage return alone does not make the writer quote a cell, so the cell comes back as two rows. */
  lemma CarriageReturnSplitsRow(a: string, b: string)
    requires !NeedsQuotes(a) && !NeedsQuotes(b) && !HasReturn(a) && !HasReturn(b) && b != "" && !StartsWithBom(a)
    ensures Parsed(Write([[a + "\r" + b]])) == Success([[a], [b]])
  {
    var text := a + "\r" + b;
    assert !Special(b[0]) && !NeedsQuotes(text);
    LineEndings(a, b);
    UnixLinesSame(b);
    WriteOneCell(text);
    ScanTwoLines(a, b, a + "\n" + b);
  }

  lemma WriteOneCell(text: string)
    requires !NeedsQuotes(text)
    ensures Write([[text]]) == text
  {
  }

  lemma ScanTwoLines(a: string, b: string, text: string)
    requires !NeedsQuotes(a) && !NeedsQuotes(b) && b != "" && text == a + "\n" + b
    ensures Finish(Scan(START, text)) == Success([[a], [b]])
  {
    ScanLine([], [a], b);
    assert text == WriteRow([a]) + ("\n" + b);
    assert [] + [AtLeastOneCell([a])] == [[a]];
    ScanLastLine([[a]], [b]);
    assert WriteRow([b]) == b && [[a]] + [[b]] == [[a], [b]];
  }

  // ----- The product export -----

  /** A product's columns as text: number and boolean columns are already formatted. */
  datatype Product = Product(sku: string, name: string, salePrice: string, reorderPoint: string, description: Option<string>,
                             isActive: string)

  const HEADINGS := ["sku", "name", "sale_price", "reorder_point", "description", "is_active"]

  /** Texts joined by commas as they are. */
  function Commas(texts: seq<string>): string {
    if texts == [] then "" else if |texts| == 1 then texts[0] else texts[0] + "," + Commas(texts[1..])
  }

  function Cells(product: Product): Row {
    [product.sku, product.name, product.salePrice, product.reorderPoint,
     if product.description.Some? then product.description.value else "", product.isActive]
  }

  function Exported(products: seq<Product>): string {
    Commas(HEADINGS) + ExportedLines(products)
  }

  function ExportedLines(products: seq<Product>): string {
    if products == [] then "" else "\n" + WriteRow(Cells(products[0])) + ExportedLines(products[1..])
  }

  function Rows(products: seq<Product>): Grid {
    if products == [] then [] else [Cells(products[0])] + Rows(products[1..])
  }

  lemma Regroup(a: string, b: string, c: string)
    ensures a + "\n" + (b + c) == a + ("\n" + b + c)
  {
  }

  lemma {:induction false} ExportedIsWritten(first: Row, products: seq<Product>)
    ensures Write([first] + Rows(products)) == WriteRow(first) + ExportedLines(products)
    decreases products
  {
    var grid := [first] + Rows(products);
    if products == [] {
      assert grid == [first] && WriteRow(first) + "" == WriteRow(first);
    } else {
      var cells := Cells(products[0]);
      ExportedIsWritten(cells, products[1..]);
      assert grid[1..] == [cells] + Rows(products[1..]);
      Regroup(WriteRow(first), WriteRow(cells), ExportedLines(products[1..]));
    }
  }

  lemma HeadingsPlain(i: nat)
    requires i < |HEADINGS|
    ensures !NeedsQuotes(HEADINGS[i]) && !HasReturn(HEADINGS[i])
  {
  }

  lemma {:induction false} PlainRow(row: Row)
    requires forall i | 0 <= i < |row| :: !NeedsQuotes(row[i])
    ensures WriteRow(row) == Commas(row)
  {
    if |row| > 1 {
      PlainRow(row[1..]);
    }
  }

  lemma HeadingsWritten()
    ensures WriteRow(HEADINGS) == Commas(HEADINGS) && Commas(HEADINGS) != "" && Commas(HEADINGS)[0] == 's'
  {
    forall i | 0 <= i < |HEADINGS| ensures !NeedsQuotes(HEADINGS[i]) {
      HeadingsPlain(i);
    }
    PlainRow(HEADINGS);
  }

  lemma {:induction false} RowsHaveCells(products: seq<Product>)
    ensures |Rows(products)| == |products| && forall i | 0 <= i < |products| :: Rows(products)[i] == Cells(products[i])
  {
    if products != [] {
      RowsHaveCells(products[1..]);
    }
  }

  /** No field holds a carriage return. */
  ghost predicate ReturnFree(products: seq<Product>) {
    forall i | 0 <= i < |products| :: forall cell | cell in Cells(products[i]) :: !HasReturn(cell)
  }

  lemma ExportedReturns(products: seq<Product>)
    ensures NoReturns([HEADINGS] + Rows(products)) <==> ReturnFree(products)
  {
    var grid := [HEADINGS] + Rows(products);
    forall i | 0 <= i < |HEADINGS| ensures !HasReturn(HEADINGS[i]) {
      HeadingsPlain(i);
    }
    RowsHaveCells(products);
    assert forall i | 0 <= i < |products| :: grid[i + 1] == Cells(products[i]) && Cells(products[i]) in grid;
  }

  lemma ExportedReadable(products: seq<Product>)
    ensures Readable([HEADINGS] + Rows(products))
  {
    var grid := [HEADINGS] + Rows(products);
    RowsHaveCells(products);
    forall i | 0 <= i < |grid| ensures |grid[i]| == 6 {
      if i > 0 {
        assert grid[i] == Cells(products[i - 1]);
      }
    }
  }

  /** An export scans back to its headings and one row for each product exactly when no field has a carriage return. */
  lemma ExportRoundTrip(products: seq<Product>)
    ensures Parsed(Exported(products)) == Success([HEADINGS] + Rows(products)) <==> ReturnFree(products)
  {
    HeadingsWritten();
    ExportedIsWritten(HEADINGS, products);
    ExportedReadable(products);
    ExportedReturns(products);
    RoundTrip([HEADINGS] + Rows(products));
  }
}
