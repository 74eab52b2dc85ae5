/**
 * bing/2024/Convert-all-JSON-on-this-page-to-Markdown.py: each `.json`
 * file of a yearly folder becomes a Markdown page holding a three-column
 * table, one cell per record: a 384-pixel-wide thumbnail, the date as
 * `YYYY-MM-DD` linking to the full UHD image, and the copyright text.
 */
module Markdown {
  import opened Wrappers
  import opened Text
  import opened Records
  import opened Lists

  /** The title line and the two header lines of the table. */
  const Header: string := "## Bing Wallpaper (2024)\n" + "|      |      |      |\n" + "| :----: | :----: | :----: |\n"

  /** The row of empty cells written after an incomplete last row. */
  const EmptyRow: string := "||||\n"

  /** The full-size image of a record. */
  function ImageUrl(urlbase: string): string
  {
    urlbase + "_UHD.jpg"
  }

  /** `{date[:4]}-{date[4:6]}-{date[6:]}`. */
  function DateLabel(date: string): string
  {
    PySlice(date, 0, 4) + "-" + PySlice(date, 4, 6) + "-" + PySlice(date, 6, |date|)
  }

  predicate IsDash(c: char) { c == '-' }

  function NotDash(): char -> bool
  {
    c => !IsDash(c)
  }

  /** Removing the two dashes of the label gives the `date` back, whatever its length. */
  lemma DateLabelKeepsDate(date: string)
    requires forall i | 0 <= i < |date| :: date[i] != '-'
    ensures Filter(DateLabel(date), NotDash()) == date
    ensures |date| == 8 ==> DateLabel(date) == date[..4] + "-" + date[4..6] + "-" + date[6..]
  {
    SlicesPartition(date);
    NoDashes(date, 0, 4);
    NoDashes(date, 4, 6);
    NoDashes(date, 6, |date|);
    DropDashes(PySlice(date, 0, 4), PySlice(date, 4, 6), PySlice(date, 6, |date|));
  }

  lemma SlicesPartition(date: string)
    ensures PySlice(date, 0, 4) + PySlice(date, 4, 6) + PySlice(date, 6, |date|) == date
  {
  }

  lemma NoDashes(date: string, lo: nat, hi: nat)
    requires forall i | 0 <= i < |date| :: date[i] != '-'
    ensures Filter(PySlice(date, lo, hi), NotDash()) == PySlice(date, lo, hi)
  {
    var part := PySlice(date, lo, hi);
    assert forall i | 0 <= i < |part| :: part[i] in date;
    FilterAllPass(part, NotDash());
  }

  lemma DropDashes(a: string, b: string, c: string)
    requires Filter(a, NotDash()) == a && Filter(b, NotDash()) == b && Filter(c, NotDash()) == c
    ensures Filter(a + "-" + b + "-" + c, NotDash()) == a + b + c
  {
    var p := NotDash();
    DropDash(a, p);
    DropDash(a + "-" + b, p);
    FilterConcat(a + "-", b, p);
    FilterConcat(a + "-" + b + "-", c, p);
  }

  /** A dash after dash-free text disappears. */
  lemma DropDash(a: string, p: char -> bool)
    requires p == NotDash()
    ensures Filter(a + "-", p) == Filter(a, p)
  {
    FilterConcat(a, "-", p);
    assert Filter("-", p) == (if p('-') then "-" else []) + Filter("-"[1..], p);
    assert Filter("-", p) == [];
  }

  /**
   * `md_link`: `date`, `urlbase` and `copyright` are read in that order, a
   * missing one raising KeyError.
   */
  function Cell(item: Record): (r: Result<string>)
    ensures r.Err? <==> DateKey !in item || UrlBaseKey !in item || CopyrightKey !in item
    ensures r.Err? ==> r.error == KeyError(if DateKey !in item then DateKey
                                           else if UrlBaseKey !in item then UrlBaseKey
                                           else CopyrightKey)
  {
    if DateKey !in item then Err(KeyError(DateKey))
    else if UrlBaseKey !in item then Err(KeyError(UrlBaseKey))
    else if CopyrightKey !in item then Err(KeyError(CopyrightKey))
    else
      var image := ImageUrl(item[UrlBaseKey]);
      Ok("![](" + image + "&w=384)[" + DateLabel(item[DateKey]) + "](" + image + "): " + item[CopyrightKey])
  }

  /** The cells of the records in order; the first record that fails stops the file. */
  function Cells(data: seq<Record>): Result<seq<string>>
  {
    if data == [] then Ok([])
    else
      match Cells(data[..|data| - 1])
      case Err(e) => Err(e)
      case Ok(init) =>
        match Cell(data[|data| - 1])
        case Err(e) => Err(e)
        case Ok(cell) => Ok(init + [cell])
  }

  /** The cells exist exactly when every record has its cell. */
  lemma {:induction false} CellsOk(data: seq<Record>)
    ensures Cells(data).Ok? <==> forall i | 0 <= i < |data| :: Cell(data[i]).Ok?
    decreases |data|
  {
    if data != [] {
      var init := data[..|data| - 1];
      CellsOk(init);
      assert forall i | 0 <= i < |init| :: init[i] == data[i];
    }
  }

  /** Then they are the records' cells, in order. */
  lemma {:induction false} CellsValues(data: seq<Record>)
    requires Cells(data).Ok?
    ensures |Cells(data).value| == |data|
            && forall i | 0 <= i < |data| :: Cell(data[i]).Ok? && Cells(data).value[i] == Cell(data[i]).value
    decreases |data|
  {
    if data != [] {
      var init := data[..|data| - 1];
      CellsValues(init);
      assert forall i | 0 <= i < |init| :: init[i] == data[i];
    }
  }

  /** Otherwise the error is that of the first record without a cell. */
  lemma {:induction false} CellsFirstError(data: seq<Record>)
    requires Cells(data).Err?
    ensures exists i | 0 <= i < |data| :: Cell(data[i]).Err? && Cells(data).error == Cell(data[i]).error
                                         && forall j | 0 <= j < i :: Cell(data[j]).Ok?
    decreases |data|
  {
    var init := data[..|data| - 1];
    assert forall i | 0 <= i < |init| :: init[i] == data[i];
    if Cells(init).Err? {
      CellsFirstError(init);
      var i :| 0 <= i < |init| && Cell(init[i]).Err? && Cells(init).error == Cell(init[i]).error
               && forall j | 0 <= j < i :: Cell(init[j]).Ok?;
      assert Cell(data[i]).Err? && Cells(data).error == Cell(data[i]).error;
    } else {
      CellsOk(init);
      var i := |data| - 1;
      assert Cell(data[i]).Err? && Cells(data).error == Cell(data[i]).error;
    }
  }

  // ---------------------------------------------------------- the table

  /** `|c1|c2…`: each cell preceded by a bar. */
  function RowText(cells: seq<string>): string
  {
    if cells == [] then "" else "|" + cells[0] + RowText(cells[1..])
  }

  function Bars(n: nat): (r: string)
    ensures |r| == n && forall i | 0 <= i < n :: r[i] == '|'
  {
    if n == 0 then "" else "|" + Bars(n - 1)
  }

  /** The complete rows of three cells each, closed by a bar and a newline; fewer than three cells left give nothing. */
  function FullRows(cells: seq<string>): string
    decreases |cells|
  {
    if |cells| < 3 then "" else RowText(cells[..3]) + "|\n" + FullRows(cells[3..])
  }

  /**
   * The table body: the complete rows, then an incomplete last row padded
   * with `3 - count % 3` bars, followed by a row of empty cells.
   */
  function Table(cells: seq<string>): string
    decreases |cells|
  {
    if |cells| >= 3 then RowText(cells[..3]) + "|\n" + Table(cells[3..])
    else if cells == [] then ""
    else RowText(cells) + Bars(3 - |cells|) + "\n" + EmptyRow
  }

  /** The Markdown page of one file. */
  function Document(data: seq<Record>): Result<string>
  {
    match Cells(data)
    case Err(e) => Err(e)
    case Ok(cells) => Ok(Header + Table(cells))
  }

  lemma {:induction false} RowTextSnoc(cells: seq<string>, c: string)
    ensures RowText(cells + [c]) == RowText(cells) + "|" + c
    decreases |cells|
  {
    if cells != [] {
      assert (cells + [c])[1..] == cells[1..] + [c];
      RowTextSnoc(cells[1..], c);
    } else {
      assert RowText([c]) == "|" + c + RowText([]);
    }
  }

  /** Appending a complete row to complete rows. */
  lemma {:induction false} FullRowsAppend(a: seq<string>, k: nat, b: seq<string>)
    requires |a| == 3 * k && |b| == 3
    ensures FullRows(a + b) == FullRows(a) + RowText(b) + "|\n"
    decreases k
  {
    if k > 0 {
      assert (a + b)[..3] == a[..3];
      assert (a + b)[3..] == a[3..] + b;
      FullRowsAppend(a[3..], k - 1, b);
    } else {
      assert a + b == b && b[3..] == [] && b[..3] == b;
    }
  }

  /** The table is its first `k` complete rows followed by the table of the rest. */
  lemma {:induction false} TableSplit(cells: seq<string>, k: nat)
    requires 3 * k <= |cells|
    ensures Table(cells) == FullRows(cells[..3 * k]) + Table(cells[3 * k..])
    decreases k
  {
    if k > 0 {
      TableSplit(cells[3..], k - 1);
      assert cells[3..][..3 * (k - 1)] == cells[..3 * k][3..];
      assert cells[3..][3 * (k - 1)..] == cells[3 * k..];
      assert cells[..3 * k][..3] == cells[..3];
    } else {
      assert cells[..0] == [];
    }
  }

  /**
   * Where the converter's loop stands after the cells `cells`: `rowsDone`
   * complete rows are in `mdContent`, the rest of the cells in the open `row`.
   */
  ghost predicate Layout(cells: seq<string>, rowsDone: nat, mdContent: string, row: string)
  {
    3 * rowsDone <= |cells| < 3 * rowsDone + 3 && |cells| % 3 == |cells| - 3 * rowsDone
    && mdContent == Header + FullRows(cells[..3 * rowsDone])
    && row == RowText(cells[3 * rowsDone..])
  }

  /** The converter's loop over the records, building `md_content` row by row. */
  method ConvertToMarkdown(data: seq<Record>) returns (r: Result<string>)
    ensures r == Document(data)
  {
    var mdContent := Header;
    var row := "";
    var count := 0;
    ghost var cells: seq<string> := [];
    ghost var rowsDone: nat := 0;
    AppendEmpty(Header);
    assert cells[..0] == [];
    while count < |data|
      invariant 0 <= count <= |data| && |cells| == count
      invariant Cells(data[..count]) == Ok(cells)
      invariant Layout(cells, rowsDone, mdContent, row)
    {
      var cell := Cell(data[count]);
      CellsStep(data, count);
      if cell.Err? {
        CellsPrefixErr(data, count + 1);
        return Err(cell.error);
      }
      mdContent, row, rowsDone := AddCell(mdContent, row, count, cell.value, cells, rowsDone);
      cells := cells + [cell.value];
      count := count + 1;
    }
    assert data[..count] == data;
    ghost var before := mdContent;
    ghost var j := count - 3 * rowsDone;
    RowTextEmpty(cells[3 * rowsDone..]);
    if row != "" {
      mdContent := mdContent + (row + Bars(3 - count % 3) + "\n");
    }
    if count % 3 != 0 {
      mdContent := mdContent + EmptyRow;
    }
    FinishTable(Header, cells, rowsDone, j, before, row, mdContent);
    return Ok(mdContent);
  }

  /** One turn of the loop for a record that has its cell: the cell joins the open row, and a full row is flushed. */
  method AddCell(mdContent: string, row: string, count: nat, cell: string, ghost cells: seq<string>, ghost rowsDone: nat)
    returns (mdContent': string, row': string, ghost rowsDone': nat)
    requires |cells| == count && Layout(cells, rowsDone, mdContent, row)
    ensures Layout(cells + [cell], rowsDone', mdContent', row')
  {
    LoopStep(cells, rowsDone, cell);
    row' := row + "|" + cell;
    mdContent' := mdContent;
    rowsDone' := rowsDone;
    if (count + 1) % 3 == 0 {
      AppendAssoc(Header, FullRows(cells[..3 * rowsDone]), row' + "|\n");
      mdContent' := mdContent + (row' + "|\n");
      row' := "";
      rowsDone' := rowsDone + 1;
    }
  }

  lemma RowTextEmpty(cells: seq<string>)
    ensures RowText(cells) == "" <==> cells == []
  {
  }

  lemma CellsStep(data: seq<Record>, k: nat)
    requires k < |data| && Cells(data[..k]).Ok?
    ensures Cells(data[..k + 1]) ==
              if Cell(data[k]).Err? then Err(Cell(data[k]).error) else Ok(Cells(data[..k]).value + [Cell(data[k]).value])
  {
    assert data[..k + 1][..k] == data[..k];
  }

  /** One turn of the loop: the new count, and where the new cell goes. */
  lemma LoopStep(cells: seq<string>, k: nat, c: string)
    requires 3 * k <= |cells| < 3 * k + 3
    ensures var cells', n := cells + [c], |cells| + 1;
            if n % 3 == 0 then
              n == 3 * (k + 1) && n % 3 == n - 3 * (k + 1)
              && FullRows(cells'[..3 * (k + 1)]) == FullRows(cells[..3 * k]) + (RowText(cells[3 * k..]) + "|" + c + "|\n")
              && RowText(cells'[3 * (k + 1)..]) == ""
            else
              n < 3 * k + 3 && n % 3 == n - 3 * k
              && FullRows(cells'[..3 * k]) == FullRows(cells[..3 * k])
              && RowText(cells'[3 * k..]) == RowText(cells[3 * k..]) + "|" + c
  {
    var n := |cells| + 1;
    if n == 3 * k + 3 {
      ModOf(k + 1, 0);
    } else {
      ModOf(k, n - 3 * k);
    }
    AppendCell(cells, k, c);
  }

  /** One more cell: either it completes a row, which moves into the content, or it extends the open row. */
  lemma AppendCell(cells: seq<string>, k: nat, c: string)
    requires 3 * k <= |cells| < 3 * k + 3
    ensures var cells' := cells + [c];
            if |cells'| == 3 * k + 3 then
              FullRows(cells'[..3 * k + 3]) == FullRows(cells[..3 * k]) + (RowText(cells[3 * k..]) + "|" + c + "|\n")
              && RowText(cells'[3 * k + 3..]) == ""
            else
              FullRows(cells'[..3 * k]) == FullRows(cells[..3 * k])
              && RowText(cells'[3 * k..]) == RowText(cells[3 * k..]) + "|" + c
  {
    var cells' := cells + [c];
    RowTextSnoc(cells[3 * k..], c);
    assert cells'[3 * k..] == cells[3 * k..] + [c];
    assert cells'[..3 * k] == cells[..3 * k];
    if |cells'| == 3 * k + 3 {
      FullRowsAppend(cells'[..3 * k], k, cells'[3 * k..]);
      assert cells'[..3 * k] + cells'[3 * k..] == cells'[..3 * k + 3];
      AppendAssoc(FullRows(cells[..3 * k]), RowText(cells[3 * k..]) + "|" + c, "|\n");
      assert cells'[3 * k + 3..] == [];
    }
  }

  /** After the loop: the open row, padded, and the row of empty cells complete the table. */
  lemma FinishTable(header: string, cells: seq<string>, k: nat, j: nat, before: string, row: string, after: string)
    requires |cells| == 3 * k + j && j < 3
    requires before == header + FullRows(cells[..3 * k]) && row == RowText(cells[3 * k..])
    requires after == if j == 0 then before else before + (row + Bars(3 - j) + "\n") + EmptyRow
    ensures after == header + Table(cells)
  {
    TableSplit(cells, k);
    var rest := cells[3 * k..];
    var rows := FullRows(cells[..3 * k]);
    if j == 0 {
      assert rest == [];
      assert Table(cells) == rows + "";
    } else {
      var tail := row + Bars(3 - j) + "\n";
      assert Table(rest) == tail + EmptyRow;
      AppendAssoc(header + rows, tail, EmptyRow);
      AppendAssoc(header, rows, tail + EmptyRow);
    }
  }

  lemma {:induction false} ModOf(k: nat, j: nat)
    requires j < 3
    ensures (3 * k + j) % 3 == j
  {
    if k > 0 {
      ModOf(k - 1, j);
      assert 3 * k + j == (3 * (k - 1) + j) + 3;
    }
  }

  lemma AppendEmpty(a: string)
    ensures a + "" == a
  {
  }

  lemma AppendAssoc(a: string, b: string, c: string)
    ensures a + b + c == a + (b + c)
  {
  }

  /** A prefix that fails makes the whole file fail with the same error. */
  lemma {:induction false} CellsPrefixErr(data: seq<Record>, k: nat)
    requires k <= |data| && Cells(data[..k]).Err?
    ensures Cells(data) == Cells(data[..k])
    decreases |data| - k
  {
    if k < |data| {
      assert data[..k + 1][..k] == data[..k];
      CellsPrefixErr(data, k + 1);
    } else {
      assert data[..k] == data;
    }
  }

  // ---------------------------------------------------- what the page holds

  predicate NoTableSyntax(s: string)
  {
    forall i | 0 <= i < |s| :: s[i] != '|' && s[i] != '\n'
  }

  function IsText(): char -> bool
  {
    c => c != '|' && c != '\n'
  }

  function IsNewline(): char -> bool
  {
    c => c == '\n'
  }

  /** The cells written one after the other. */
  function Concat(cells: seq<string>): string
  {
    if cells == [] then "" else cells[0] + Concat(cells[1..])
  }

  lemma {:induction false} RowTextText(cells: seq<string>)
    requires forall k | 0 <= k < |cells| :: NoTableSyntax(cells[k])
    ensures Filter(RowText(cells), IsText()) == Concat(cells)
    ensures Filter(RowText(cells), IsNewline()) == []
    decreases |cells|
  {
    if cells != [] {
      RowTextText(cells[1..]);
      FilterConcat("|" + cells[0], RowText(cells[1..]), IsText());
      FilterConcat("|", cells[0], IsText());
      FilterAllPass(cells[0], IsText());
      FilterConcat("|" + cells[0], RowText(cells[1..]), IsNewline());
      FilterConcat("|", cells[0], IsNewline());
      NoneNewline(cells[0]);
    }
  }

  lemma {:induction false} NoneNewline(s: string)
    requires NoTableSyntax(s)
    ensures Filter(s, IsNewline()) == []
    decreases |s|
  {
    if s != [] {
      NoneNewline(s[1..]);
    }
  }

  lemma {:induction false} ConcatAppend(a: seq<string>, b: seq<string>)
    ensures Concat(a + b) == Concat(a) + Concat(b)
    decreases |a|
  {
    if a != [] {
      assert (a + b)[1..] == a[1..] + b;
      ConcatAppend(a[1..], b);
    } else {
      assert a + b == b;
    }
  }

  lemma {:induction false} BarsText(n: nat)
    ensures Filter(Bars(n), IsText()) == [] && Filter(Bars(n), IsNewline()) == []
  {
    if n > 0 {
      BarsText(n - 1);
      FilterConcat("|", Bars(n - 1), IsText());
      FilterConcat("|", Bars(n - 1), IsNewline());
    }
  }

  lemma EmptyRowText()
    ensures Filter(EmptyRow, IsText()) == [] && Filter(EmptyRow, IsNewline()) == "\n"
  {
    assert EmptyRow == Bars(4) + "\n";
    BarsText(4);
    FilterConcat(Bars(4), "\n", IsText());
    FilterConcat(Bars(4), "\n", IsNewline());
  }

  /** The incomplete last row and the row of empty cells: their text, and their two newlines. */
  lemma LastRowsText(cells: seq<string>)
    requires 0 < |cells| < 3
    requires forall k | 0 <= k < |cells| :: NoTableSyntax(cells[k])
    ensures Filter(Table(cells), IsText()) == Concat(cells)
    ensures |Filter(Table(cells), IsNewline())| == 2
  {
    var row, bars := RowText(cells), Bars(3 - |cells|);
    var line := row + bars + "\n";
    assert Table(cells) == line + EmptyRow;
    RowTextText(cells);
    BarsText(3 - |cells|);
    EmptyRowText();
    FilterConcat(line, EmptyRow, IsText());
    FilterConcat(line, EmptyRow, IsNewline());
    FilterConcat(row + bars, "\n", IsText());
    FilterConcat(row + bars, "\n", IsNewline());
    FilterConcat(row, bars, IsText());
    FilterConcat(row, bars, IsNewline());
  }

  /** A complete row: its three cells' text and one newline. */
  lemma FullRowText(cells: seq<string>)
    requires |cells| == 3
    requires forall k | 0 <= k < |cells| :: NoTableSyntax(cells[k])
    ensures Filter(RowText(cells) + "|\n", IsText()) == Concat(cells)
    ensures |Filter(RowText(cells) + "|\n", IsNewline())| == 1
  {
    RowTextText(cells);
    FilterConcat(RowText(cells), "|\n", IsText());
    FilterConcat(RowText(cells), "|\n", IsNewline());
    assert Filter("|\n", IsText()) == [];
    assert Filter("|\n", IsNewline()) == "\n";
  }

  /**
   * When no copyright text, `urlbase` or `date` holds a bar or a newline,
   * the table holds exactly the cells, in record order, between its
   * separators, and has one line per complete row plus two after an
   * incomplete last row (that row, then the row of empty cells).
   */
  lemma {:induction false} TableHoldsCells(cells: seq<string>)
    requires forall k | 0 <= k < |cells| :: NoTableSyntax(cells[k])
    ensures Filter(Table(cells), IsText()) == Concat(cells)
    ensures |Filter(Table(cells), IsNewline())| == |cells| / 3 + (if |cells| % 3 == 0 then 0 else 2)
    decreases |cells|
  {
    if |cells| >= 3 {
      TableHoldsCells(cells[3..]);
      FirstRowText(cells);
      DivStep(|cells|);
    } else if cells != [] {
      LastRowsText(cells);
    }
  }

  lemma DivStep(n: nat)
    requires n >= 3
    ensures n / 3 == (n - 3) / 3 + 1 && n % 3 == (n - 3) % 3
  {
  }

  /** Splitting the table after its first row. */
  lemma FirstRowText(cells: seq<string>)
    requires |cells| >= 3
    requires forall k | 0 <= k < |cells| :: NoTableSyntax(cells[k])
    ensures Filter(Table(cells), IsText()) == Concat(cells[..3]) + Filter(Table(cells[3..]), IsText())
    ensures |Filter(Table(cells), IsNewline())| == 1 + |Filter(Table(cells[3..]), IsNewline())|
    ensures Concat(cells[..3]) + Concat(cells[3..]) == Concat(cells)
  {
    var first := RowText(cells[..3]) + "|\n";
    FullRowText(cells[..3]);
    FilterConcat(first, Table(cells[3..]), IsText());
    FilterConcat(first, Table(cells[3..]), IsNewline());
    ConcatAppend(cells[..3], cells[3..]);
    assert cells[..3] + cells[3..] == cells;
  }

  /**
   * A file converts exactly when every record has `date`, `urlbase` and
   * `copyright`; otherwise the error is the first missing key of the first
   * record that lacks one.
   */
  lemma DocumentErrors(data: seq<Record>)
    ensures Document(data).Ok? <==>
              forall i | 0 <= i < |data| :: DateKey in data[i] && UrlBaseKey in data[i] && CopyrightKey in data[i]
    ensures Document(data).Err? ==>
              exists i | 0 <= i < |data| :: Cell(data[i]).Err? && Document(data).error == Cell(data[i]).error
                                           && forall j | 0 <= j < i :: Cell(data[j]).Ok?
  {
    CellsOk(data);
    if Document(data).Err? {
      CellsFirstError(data);
    }
  }

  // --------------------------------------------------------- file names

  /**
   * `os.path.splitext(filename)[0] + '.md'` for a `.json` name: the
   * extension is dropped, unless only dots come before it (a leading dot
   * does not start an extension).
   */
  predicate OnlyDots(s: string)
  {
    forall i | 0 <= i < |s| :: s[i] == '.'
  }

  function MarkdownName(name: string): string
    requires IsJsonName(name)
  {
    var stem := name[..|name| - 5];
    if OnlyDots(stem) then name + ".md" else stem + ".md"
  }

  /** Different `.json` names with an ordinary stem give different page names. */
  lemma MarkdownNameInjective(a: string, b: string)
    requires IsJsonName(a) && IsJsonName(b) && a != b
    requires a[0] != '.' && b[0] != '.'
    ensures MarkdownName(a) == a[..|a| - 5] + ".md"
    ensures MarkdownName(a) != MarkdownName(b)
  {
    var sa, sb := a[..|a| - 5], b[..|b| - 5];
    assert a == sa + ".json" && b == sb + ".json";
    assert sa[0] == a[0] && sb[0] == b[0];
    assert !OnlyDots(sa) && !OnlyDots(sb);
    var ma, mb := sa + ".md", sb + ".md";
    assert MarkdownName(a) == ma && MarkdownName(b) == mb;
    if |sa| == |sb| {
      var i :| 0 <= i < |sa| && sa[i] != sb[i];
      assert ma[i] != mb[i];
    } else {
      assert |ma| != |mb|;
    }
  }
}
