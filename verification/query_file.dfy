/**
 readQueryFile (proteinFinder.py:50-87) on rows the CSV reader has already
 produced: an optional header row, the query in column 0 and an optional
 organism hint in column 1.
 */
module QueryFile {
  import opened Text
  import opened Base

  type CsvRow = seq<String>

  /** The queries, and the organism hints of the rows that had a second cell. */
  datatype Queries = Queries(queries: seq<String>, organisms: seq<String>)

  /** The rows that carry data. With `noheaders` False the first row, if any,
      is a header and is skipped. */
  function DataRows(rows: seq<CsvRow>, noheaders: bool): (body: seq<CsvRow>)
    ensures |body| == if !noheaders && |rows| > 0 then |rows| - 1 else |rows|
    ensures body == rows[|rows| - |body|..]
  {
    if !noheaders && |rows| > 0 then rows[1..] else rows
  }

  /** Column 0 of every row. */
  function FirstCells(rows: seq<CsvRow>): (qs: seq<String>)
    requires forall i :: 0 <= i < |rows| ==> |rows[i]| > 0
    ensures |qs| == |rows|
    ensures forall i :: 0 <= i < |rows| ==> qs[i] == rows[i][0]
  {
    if |rows| == 0 then [] else [rows[0][0]] + FirstCells(rows[1..])
  }

  /** Column 1 of the rows that have one; shorter rows are passed over. A hint
      is present exactly when some row carries it in its second cell. */
  function SecondCells(rows: seq<CsvRow>): (hints: seq<String>)
    ensures |hints| <= |rows|
    ensures forall h :: h in hints ==> exists i :: 0 <= i < |rows| && |rows[i]| > 1 && rows[i][1] == h
    ensures forall i :: 0 <= i < |rows| && |rows[i]| > 1 ==> rows[i][1] in hints
  {
    if |rows| == 0 then []
    else
      var rest := SecondCells(rows[1..]);
      assert forall h :: h in rest ==> exists i :: 1 <= i < |rows| && |rows[i]| > 1 && rows[i][1] == h;
      assert forall i :: 1 <= i < |rows| ==> rows[i] == rows[1..][i - 1];
      (if |rows[0]| > 1 then [rows[0][1]] else []) + rest
  }

  /** The hints keep row order: those of a block of rows followed by another
      are the first block's hints followed by the second's. */
  lemma {:induction false} SecondCellsAppend(a: seq<CsvRow>, b: seq<CsvRow>)
    ensures SecondCells(a + b) == SecondCells(a) + SecondCells(b)
  {
    if |a| == 0 {
      assert a + b == b;
    } else {
      assert (a + b)[1..] == a[1..] + b;
      SecondCellsAppend(a[1..], b);
    }
  }

  /** A single row contributes its second cell if it has one, else nothing. */
  lemma SecondCellsOfRow(row: CsvRow)
    ensures SecondCells([row]) == if |row| > 1 then [row[1]] else []
  {
    assert [row][1..] == [];
  }

  /** The organism list has one entry per row exactly when every row has a
      second cell, and only then is it index-aligned with the queries. */
  lemma {:induction false} SecondCellsAligned(rows: seq<CsvRow>)
    ensures |SecondCells(rows)| == |rows| <==> forall i :: 0 <= i < |rows| ==> |rows[i]| > 1
    ensures (forall i :: 0 <= i < |rows| ==> |rows[i]| > 1) ==>
      forall i :: 0 <= i < |rows| ==> SecondCells(rows)[i] == rows[i][1]
  {
    if |rows| > 0 {
      SecondCellsAligned(rows[1..]);
      assert forall i :: 1 <= i < |rows| ==> rows[i] == rows[1..][i - 1];
    }
  }

  /** readQueryFile: `row[0]` fails on an empty row before anything else is
      checked; then the input is rejected unless some query is non-empty. */
  function ReadQueryFile(rows: seq<CsvRow>, noheaders: bool): (r: Result<Queries>)
    ensures r == Failure(RowWithoutCells) <==>
      exists i :: 0 <= i < |DataRows(rows, noheaders)| && |DataRows(rows, noheaders)[i]| == 0
    ensures r == Failure(NoDataLoaded) <==>
      && (forall i :: 0 <= i < |DataRows(rows, noheaders)| ==> |DataRows(rows, noheaders)[i]| > 0)
      && (forall i :: 0 <= i < |DataRows(rows, noheaders)| ==> DataRows(rows, noheaders)[i][0] == [])
    ensures r.Failure? ==> r.error in {RowWithoutCells, NoDataLoaded}
    ensures r.Success? ==>
      && |r.value.queries| == |DataRows(rows, noheaders)|
      && (forall i :: 0 <= i < |r.value.queries| ==> r.value.queries[i] == DataRows(rows, noheaders)[i][0])
      && (exists i :: 0 <= i < |r.value.queries| && r.value.queries[i] != [])
      && r.value.organisms == SecondCells(DataRows(rows, noheaders))
  {
    var body := DataRows(rows, noheaders);
    if exists i :: 0 <= i < |body| && |body[i]| == 0 then
      Failure(RowWithoutCells)
    else
      var queries := FirstCells(body);
      if exists i :: 0 <= i < |queries| && queries[i] != [] then
        Success(Queries(queries, SecondCells(body)))
      else
        Failure(NoDataLoaded)
  }

  /** A successful read never yields an empty query list, so the searches that
      assert a non-empty list are never reached with one. */
  lemma ReadQueryFileNonEmpty(rows: seq<CsvRow>, noheaders: bool)
    requires ReadQueryFile(rows, noheaders).Success?
    ensures |ReadQueryFile(rows, noheaders).value.queries| > 0
  {
  }

  /** A header row followed by two rows with an empty organism cell. */
  lemma HeaderSkippedExample()
    ensures ReadQueryFile([["gene", "organism"], ["BRCA1", ""], ["TP53", ""]], false)
      == Success(Queries(["BRCA1", "TP53"], ["", ""]))
  {
    var rows: seq<CsvRow> := [["gene", "organism"], ["BRCA1", ""], ["TP53", ""]];
    var body := DataRows(rows, false);
    assert body == [["BRCA1", ""], ["TP53", ""]];
    assert body[1..] == [["TP53", ""]];
    assert FirstCells(body) == ["BRCA1", "TP53"];
    assert body[1..][1..] == [];
    assert SecondCells(body[1..]) == [""];
    assert SecondCells(body) == ["", ""];
    assert forall i :: 0 <= i < |body| ==> |body[i]| > 0;
    assert FirstCells(body)[0] != [];
  }

  /** Without a header, a row lacking an organism shifts the hints: the
      organism of the second query lands at index 0 of the organism list. */
  lemma OrganismsNotAlignedExample()
    ensures ReadQueryFile([["BRCA1"], ["TP53", "human"]], true)
      == Success(Queries(["BRCA1", "TP53"], ["human"]))
  {
    var body: seq<CsvRow> := [["BRCA1"], ["TP53", "human"]];
    assert DataRows(body, true) == body;
    assert body[1..] == [["TP53", "human"]];
    assert FirstCells(body) == ["BRCA1", "TP53"];
    assert body[1..][1..] == [];
    assert SecondCells(body[1..]) == ["human"];
    assert SecondCells(body) == ["human"];
    assert forall i :: 0 <= i < |body| ==> |body[i]| > 0;
    assert FirstCells(body)[0] != [];
  }
}
