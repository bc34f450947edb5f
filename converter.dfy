/**
 * Converting one sheet into delimited records. The functions say which
 * records a sheet yields; the methods are the row and cell loops that
 * write them to a record sink.
 */
module SheetConverter {
  import opened Outcomes
  import opened Workbooks

  /** True when some field of the record is a non-empty string. */
  predicate HasNonEmpty(vals: Record)
  {
    exists j :: 0 <= j < |vals| && vals[j] != ""
  }

  /**
   * The cell loop of one row: the formatted values in column order, or the
   * first formatting error met.
   */
  function FormatCells(cells: seq<Cell>): (r: Result<Record, Error>)
    ensures r.Success? <==> forall j :: 0 <= j < |cells| ==> cells[j].Formatted?
    ensures r.Success? ==> |r.value| == |cells|
    ensures r.Success? ==> forall j :: 0 <= j < |cells| ==> r.value[j] == cells[j].text
    ensures r.Failure? ==> r.error.CellFormat?
  {
    if cells == [] then Success([])
    else match cells[0]
      case FormatError(reason) => Failure(CellFormat(reason))
      case Formatted(text) =>
        match FormatCells(cells[1..])
        case Failure(e) => Failure(e)
        case Success(rest) => Success([text] + rest)
  }

  /** What one row contributes: an error, nothing, or one record. */
  function RowOutcome(row: Row): Result<Option<Record>, Error>
  {
    match row
    case NilRow => Success(None)
    case Cells(cells) =>
      match FormatCells(cells)
      case Failure(e) => Failure(e)
      case Success(vals) => if HasNonEmpty(vals) then Success(Some(vals)) else Success(None)
  }

  /**
   * A row fails exactly when one of its cells cannot be formatted, and
   * yields a record exactly when it is not nil, all its cells format and
   * some value is non-empty; the record is then the row's values, one per
   * cell, without padding.
   */
  lemma RowOutcomeCases(row: Row)
    ensures RowOutcome(row).Failure? <==>
      row.Cells? && exists j :: 0 <= j < |row.cells| && row.cells[j].FormatError?
    ensures RowOutcome(row).Success? && RowOutcome(row).value.Some? <==>
      row.Cells? && (forall j :: 0 <= j < |row.cells| ==> row.cells[j].Formatted?)
      && exists j :: 0 <= j < |row.cells| && row.cells[j].text != ""
    ensures RowOutcome(row).Success? && RowOutcome(row).value.Some? ==>
      |RowOutcome(row).value.value| == |row.cells|
      && forall j :: 0 <= j < |row.cells| ==> RowOutcome(row).value.value[j] == row.cells[j].text
  {
  }

  /** The records a run over some rows writes, and the error that stopped it, if any. */
  datatype Conversion = Conversion(records: seq<Record>, failure: Option<Error>)

  /** Rows in order: blank rows add nothing, a failing row stops the run. */
  function ConvertRows(rows: seq<Row>): Conversion
  {
    if rows == [] then Conversion([], None)
    else
      var rest := ConvertRows(rows[1..]);
      match RowOutcome(rows[0])
      case Failure(e) => Conversion([], Some(e))
      case Success(None) => rest
      case Success(Some(rec)) => Conversion([rec] + rest.records, rest.failure)
  }

  /**
   * A sheet yields at most one record per row, each with a non-empty value;
   * it fails exactly when some row fails, and then with a cell error.
   */
  lemma {:induction false} ConvertRowsShape(rows: seq<Row>)
    ensures |ConvertRows(rows).records| <= |rows|
    ensures forall k :: 0 <= k < |ConvertRows(rows).records| ==> HasNonEmpty(ConvertRows(rows).records[k])
    ensures ConvertRows(rows).failure.Some? ==> ConvertRows(rows).failure.value.CellFormat?
    ensures ConvertRows(rows).failure.None? <==> forall k :: 0 <= k < |rows| ==> RowOutcome(rows[k]).Success?
  {
    if rows != [] {
      ConvertRowsShape(rows[1..]);
      assert forall k :: 1 <= k < |rows| ==> rows[1..][k - 1] == rows[k];
    }
  }

  lemma FormatCellsOne(c: Cell)
    ensures FormatCells([c]) == if c.Formatted? then Success([c.text]) else Failure(CellFormat(c.reason))
  {
    var cs := [c];
    assert cs[1..] == [];
    assert FormatCells(cs[1..]) == Success([]);
    if c.Formatted? {
      var r := FormatCells(cs);
      assert |r.value| == 1 && r.value[0] == c.text;
      assert r.value == [c.text];
    }
  }

  lemma {:induction false} FormatCellsConcat(a: seq<Cell>, b: seq<Cell>)
    ensures FormatCells(a + b) ==
      match FormatCells(a)
      case Failure(e) => Failure(e)
      case Success(va) =>
        match FormatCells(b)
        case Failure(e) => Failure(e)
        case Success(vb) => Success(va + vb)
  {
    if a == [] {
      assert a + b == b;
      assert FormatCells(a) == Success([]);
      if FormatCells(b).Success? {
        assert [] + FormatCells(b).value == FormatCells(b).value;
      }
    } else {
      assert (a + b)[0] == a[0];
      assert (a + b)[1..] == a[1..] + b;
      FormatCellsConcat(a[1..], b);
      if a[0].Formatted? && FormatCells(a[1..]).Success? && FormatCells(b).Success? {
        var va, vb := FormatCells(a[1..]).value, FormatCells(b).value;
        assert [a[0].text] + (va + vb) == ([a[0].text] + va) + vb;
      }
    }
  }

  /** The cell loop fails with the error of the first cell that cannot be formatted. */
  lemma FormatCellsFirstError(cells: seq<Cell>, j: nat)
    requires j < |cells| && cells[j].FormatError?
    requires forall k :: 0 <= k < j ==> cells[k].Formatted?
    ensures FormatCells(cells) == Failure(CellFormat(cells[j].reason))
  {
    assert cells == cells[..j] + cells[j..];
    assert forall k :: 0 <= k < j ==> cells[..j][k] == cells[k];
    FormatCellsConcat(cells[..j], cells[j..]);
  }

  lemma ConvertRowsOne(row: Row)
    ensures ConvertRows([row]) ==
      match RowOutcome(row)
      case Failure(e) => Conversion([], Some(e))
      case Success(None) => Conversion([], None)
      case Success(Some(rec)) => Conversion([rec], None)
  {
    assert [row][1..] == [];
  }

  /** A run over a + b is the run over a, continued over b unless a failed. */
  lemma {:induction false} ConvertRowsConcat(a: seq<Row>, b: seq<Row>)
    ensures ConvertRows(a + b) ==
      if ConvertRows(a).failure.Some? then ConvertRows(a)
      else Conversion(ConvertRows(a).records + ConvertRows(b).records, ConvertRows(b).failure)
  {
    if a == [] {
      assert a + b == b;
    } else {
      assert (a + b)[0] == a[0];
      assert (a + b)[1..] == a[1..] + b;
      ConvertRowsConcat(a[1..], b);
    }
  }

  /** A blank or nil row can be taken out of a sheet without changing what is written. */
  lemma BlankRowIgnored(a: seq<Row>, row: Row, b: seq<Row>)
    requires row.NilRow? || forall j :: 0 <= j < |row.cells| ==> row.cells[j] == Formatted("")
    ensures ConvertRows(a + [row] + b) == ConvertRows(a + b)
  {
    assert a + [row] + b == a + ([row] + b);
    assert ([row] + b)[0] == row && ([row] + b)[1..] == b;
    ConvertRowsConcat(a, [row] + b);
    ConvertRowsConcat(a, b);
  }

  /** A sheet of blank and nil rows writes no record and fails nowhere. */
  lemma {:induction false} BlankSheetWritesNothing(rows: seq<Row>)
    requires forall k :: 0 <= k < |rows| ==>
      rows[k].NilRow? || forall j :: 0 <= j < |rows[k].cells| ==> rows[k].cells[j] == Formatted("")
    ensures ConvertRows(rows) == Conversion([], None)
  {
    if rows != [] {
      assert forall k :: 0 <= k < |rows[1..]| ==> rows[1..][k] == rows[k + 1];
      BlankSheetWritesNothing(rows[1..]);
      assert RowOutcome(rows[0]) == Success(None);
    }
  }

  /**
   * The first row whose cells cannot all be formatted ends the run with its
   * error; what was written is what the rows before it wrote.
   */
  lemma FirstFailingRowStops(rows: seq<Row>, k: nat)
    requires k < |rows|
    requires forall j :: 0 <= j < k ==> RowOutcome(rows[j]).Success?
    requires RowOutcome(rows[k]).Failure?
    ensures ConvertRows(rows) == Conversion(ConvertRows(rows[..k]).records, Some(RowOutcome(rows[k]).error))
  {
    assert forall j :: 0 <= j < k ==> rows[..k][j] == rows[j];
    ConvertRowsShape(rows[..k]);
    ConvertRowsStopsAt(rows, k);
  }

  /** The sheet of the end-to-end example: the all-empty row is dropped, no padding, order kept. */
  lemma ConvertRowsExample()
    ensures ConvertRows([Cells([Formatted("a"), Formatted("b")]),
                         Cells([Formatted(""), Formatted("")]),
                         Cells([Formatted("c"), Formatted("")])])
         == Conversion([["a", "b"], ["c", ""]], None)
  {
    var r0, r1, r2 := Cells([Formatted("a"), Formatted("b")]), Cells([Formatted(""), Formatted("")]),
      Cells([Formatted("c"), Formatted("")]);
    assert FormatCells(r0.cells) == Success(["a", "b"]) by {
      assert r0.cells == [Formatted("a")] + [Formatted("b")];
      FormatCellsOne(Formatted("a"));
      FormatCellsOne(Formatted("b"));
      FormatCellsConcat([Formatted("a")], [Formatted("b")]);
      assert ["a"] + ["b"] == ["a", "b"];
    }
    assert RowOutcome(r0) == Success(Some(["a", "b"])) by { assert ["a", "b"][0] != ""; }
    assert RowOutcome(r1) == Success(None);
    assert FormatCells(r2.cells) == Success(["c", ""]) by {
      assert r2.cells == [Formatted("c")] + [Formatted("")];
      FormatCellsOne(Formatted("c"));
      FormatCellsOne(Formatted(""));
      FormatCellsConcat([Formatted("c")], [Formatted("")]);
      assert ["c"] + [""] == ["c", ""];
    }
    assert RowOutcome(r2) == Success(Some(["c", ""])) by { assert ["c", ""][0] != ""; }
    assert [r0, r1, r2][1..] == [r1, r2] && [r1, r2][1..] == [r2];
  }

  /**
   * One more row after a prefix that did not fail: a blank row adds
   * nothing, and any other row that formats adds its record at the end.
   */
  lemma ConvertRowsAppend(rows: seq<Row>, i: nat)
    requires i < |rows| && ConvertRows(rows[..i]).failure.None? && RowOutcome(rows[i]).Success?
    ensures ConvertRows(rows[..i + 1]) == Conversion(ConvertRows(rows[..i]).records +
      (if RowOutcome(rows[i]).value.Some? then [RowOutcome(rows[i]).value.value] else []), None)
  {
    var pre, row := rows[..i], rows[i];
    assert rows[..i + 1] == pre + [row];
    ConvertRowsConcat(pre, [row]);
    ConvertRowsOne(row);
    if RowOutcome(row).value.None? {
      assert ConvertRows(pre).records + [] == ConvertRows(pre).records;
    }
  }

  /**
   * A failing row after a prefix that did not fail stops the whole sheet
   * with its error, keeping the prefix's records.
   */
  lemma ConvertRowsStopsAt(rows: seq<Row>, i: nat)
    requires i < |rows| && ConvertRows(rows[..i]).failure.None? && RowOutcome(rows[i]).Failure?
    ensures ConvertRows(rows) == Conversion(ConvertRows(rows[..i]).records, Some(RowOutcome(rows[i]).error))
  {
    var pre, post := rows[..i], rows[i..];
    assert rows == pre + post;
    assert post[0] == rows[i];
    assert ConvertRows(post) == Conversion([], Some(RowOutcome(rows[i]).error));
    ConvertRowsConcat(pre, post);
  }

  lemma HasNonEmptySnoc(vals: Record, s: string)
    ensures HasNonEmpty(vals + [s]) == (HasNonEmpty(vals) || s != "")
  {
    if s != "" {
      assert (vals + [s])[|vals|] != "";
    }
    if HasNonEmpty(vals) {
      var j :| 0 <= j < |vals| && vals[j] != "";
      assert (vals + [s])[j] != "";
    }
  }

  /**
   * The CSV writer in front of one sheet's output file. Records handed to
   * it wait in `pending`; only a flush delivers them to the file, whose
   * contents are `records`. What the host's file reports when written to or
   * closed is fixed when the sink is made.
   */
  class RecordSink {
    var records: seq<Record>
    var pending: seq<Record>
    const writeError: Option<string>
    const closeError: Option<string>

    constructor (writeError: Option<string>, closeError: Option<string>)
      ensures records == [] && pending == []
      ensures this.writeError == writeError && this.closeError == closeError
    {
      records := [];
      pending := [];
      this.writeError := writeError;
      this.closeError := closeError;
    }

    /** Buffer one record; the file is not touched. */
    method Write(rec: Record)
      modifies this
      ensures pending == old(pending) + [rec]
      ensures records == old(records)
    {
      pending := pending + [rec];
    }

    /**
     * Send the buffered records to the file. Every record buffers at least
     * its line end, so an empty buffer means there is nothing to write: the
     * file is not touched and no error can arise. When there is something
     * to write and the file cannot be written, nothing reaches it, the
     * buffer is kept and the write error is returned.
     */
    method Flush() returns (err: Option<Error>)
      modifies this
      ensures writeError.None? || old(pending) == [] ==>
        err.None? && records == old(records) + old(pending) && pending == []
      ensures writeError.Some? && old(pending) != [] ==>
        err == Some(WriteFailed(writeError.value)) && records == old(records) && pending == old(pending)
    {
      if writeError.Some? && pending != [] {
        return Some(WriteFailed(writeError.value));
      }
      records := records + pending;
      pending := [];
      err := None;
    }

    method Close() returns (err: Option<Error>)
      ensures err.Some? <==> closeError.Some?
      ensures err.Some? ==> err.value == CloseFailed(closeError.value)
    {
      err := if closeError.Some? then Some(CloseFailed(closeError.value)) else None;
    }
  }

  /**
   * The row callback: format the cells of a non-nil row in order, noting
   * whether any value is non-empty; stop at the first formatting error.
   */
  method FormatRow(row: Row) returns (vals: Record, foundNonEmpty: bool, err: Option<Error>)
    ensures err.Some? <==> RowOutcome(row).Failure?
    ensures err.Some? ==> err.value == RowOutcome(row).error
    ensures err.None? && foundNonEmpty ==> RowOutcome(row) == Success(Some(vals))
    ensures err.None? && !foundNonEmpty ==> RowOutcome(row) == Success(None)
  {
    vals, foundNonEmpty, err := [], false, None;
    if row.Cells? {
      var cells := row.cells;
      var k := 0;
      while k < |cells|
        invariant 0 <= k <= |cells|
        invariant FormatCells(cells[..k]) == Success(vals)
        invariant foundNonEmpty == HasNonEmpty(vals)
      {
        assert cells[..k + 1] == cells[..k] + [cells[k]];
        FormatCellsConcat(cells[..k], [cells[k]]);
        match cells[k]
        case FormatError(reason) =>
          err := Some(CellFormat(reason));
          assert cells == cells[..k + 1] + cells[k + 1..];
          FormatCellsConcat(cells[..k + 1], cells[k + 1..]);
          return;
        case Formatted(str) =>
          FormatCellsOne(cells[k]);
          HasNonEmptySnoc(vals, str);
          if str != "" {
            foundNonEmpty := true;
          }
          vals := vals + [str];
        k := k + 1;
      }
      assert cells[..k] == cells;
    }
  }

  /**
   * The row loop: hand the record of every non-blank row to the writer
   * `w`, in order, stopping at the first row that fails. Nothing reaches
   * the file yet.
   */
  method WriteRows(w: RecordSink, rows: seq<Row>) returns (err: Option<Error>)
    modifies w
    ensures w.pending == old(w.pending) + ConvertRows(rows).records
    ensures w.records == old(w.records)
    ensures err == ConvertRows(rows).failure
  {
    var i := 0;
    while i < |rows|
      invariant 0 <= i <= |rows|
      invariant ConvertRows(rows[..i]).failure.None?
      invariant w.pending == old(w.pending) + ConvertRows(rows[..i]).records
      invariant w.records == old(w.records)
    {
      var vals, foundNonEmpty, e := FormatRow(rows[i]);
      if e.Some? {
        ConvertRowsStopsAt(rows, i);
        return e;
      }
      ConvertRowsAppend(rows, i);
      if foundNonEmpty {
        w.Write(vals);
      }
      i := i + 1;
    }
    assert rows[..i] == rows;
    err := None;
  }

  /**
   * Export sheet `index` of `f` through the writer `w`: an index past the
   * last sheet fails before anything is written. Otherwise the rows are
   * handed to the writer in order up to the first failing row; a failing
   * row returns its error without a flush, so nothing of the sheet reaches
   * the file, and a run without one ends with the flush, which can fail
   * only when something was buffered.
   */
  method GenerateCSVFromSheet(f: File, w: RecordSink, index: nat) returns (err: Option<Error>)
    modifies w
    ensures index >= f.SheetCount() ==>
      err == Some(NoSheet(index, f.SheetCount() - 1)) && w.records == old(w.records) && w.pending == old(w.pending)
    ensures index < f.SheetCount() && ConvertRows(f.sheets[index].rows).failure.Some? ==>
      && err == ConvertRows(f.sheets[index].rows).failure
      && w.records == old(w.records)
      && w.pending == old(w.pending) + ConvertRows(f.sheets[index].rows).records
    ensures index < f.SheetCount() && ConvertRows(f.sheets[index].rows).failure.None?
            && (w.writeError.None? || old(w.pending) + ConvertRows(f.sheets[index].rows).records == []) ==>
      && err.None?
      && w.records == old(w.records) + old(w.pending) + ConvertRows(f.sheets[index].rows).records
      && w.pending == []
    ensures index < f.SheetCount() && ConvertRows(f.sheets[index].rows).failure.None?
            && w.writeError.Some? && old(w.pending) + ConvertRows(f.sheets[index].rows).records != [] ==>
      && err == Some(WriteFailed(w.writeError.value))
      && w.records == old(w.records)
      && w.pending == old(w.pending) + ConvertRows(f.sheets[index].rows).records
  {
    if index >= f.SheetCount() {
      return Some(NoSheet(index, f.SheetCount() - 1));
    }
    err := WriteRows(w, f.sheets[index].rows);
    if err.None? {
      err := w.Flush();
    }
  }
}
