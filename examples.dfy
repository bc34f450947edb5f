/**
 * The end-to-end example of the exporter: each sheet on its own, then the
 * whole batch, and single sheets on a host whose files cannot be written.
 */
module ExportExamples {
  import opened Outcomes
  import opened Workbooks
  import opened FilenameNormalizer
  import opened OutFile
  import opened SheetConverter
  import opened BatchExport

  /** The two-sheet workbook of the end-to-end example. */
  const ExampleBook := File("book.xlsx", [
    Sheet("Data", [Cells([Formatted("a"), Formatted("b")]),
                   Cells([Formatted(""), Formatted("")]),
                   Cells([Formatted("c"), Formatted("")])]),
    Sheet("Empty", [Cells([Formatted(""), Formatted("")]), NilRow])])

  /** A host on which nothing fails. */
  function NoFailures(i: nat): SheetIo { SheetIo(None, None, None) }

  /**
   * A sheet exported with normalised names on a host where nothing fails
   * goes to its joined path and holds the records of its conversion.
   */
  lemma ExportedSheet(f: File, dir: string, io: nat -> SheetIo, i: nat, path: string, records: seq<Record>)
    requires i < f.SheetCount() && io(i) == SheetIo(None, None, None)
    requires JoinPath(dir, SheetFilename(f.sheets[i].name, true)) == path
    requires ConvertRows(f.sheets[i].rows) == Conversion(records, None)
    ensures SheetExport(f, dir, true, io, i) == Success(Output(Path(path), records))
  {
  }

  /** A sheet name whose rewriting is `norm` is exported to `dir/norm.csv`. */
  lemma ExamplePath(name: string, norm: string, dir: string, path: string)
    requires dir != "" && NormalizeByChar(name) == norm && dir + "/" + (norm + ".csv") == path
    ensures JoinPath(dir, SheetFilename(name, true)) == path
  {
    var filename := SheetFilename(name, true);
    assert filename == norm + ".csv" by { SheetFilenameByChar(name); }
  }

  lemma DataPath()
    ensures JoinPath("/out", SheetFilename("Data", true)) == "/out/data.csv"
  {
    assert NormalizeByChar("Data") == "data";
    assert "/out" + "/" + ("data" + ".csv") == "/out/data.csv";
    ExamplePath("Data", "data", "/out", "/out/data.csv");
  }

  lemma EmptyPath()
    ensures JoinPath("/out", SheetFilename("Empty", true)) == "/out/empty.csv"
  {
    assert NormalizeByChar("Empty") == "empty";
    assert "/out" + "/" + ("empty" + ".csv") == "/out/empty.csv";
    ExamplePath("Empty", "empty", "/out", "/out/empty.csv");
  }

  /**
   * "Data" and "Empty" exported into /out with normalised names give
   * /out/data.csv with the records a,b and c, (the blank row dropped) and
   * /out/empty.csv with none.
   */
  lemma ExportExampleData()
    ensures SheetExport(ExampleBook, "/out", true, NoFailures, 0)
         == Success(Output(Path("/out/data.csv"), [["a", "b"], ["c", ""]]))
  {
    DataPath();
    ConvertRowsExample();
    ExportedSheet(ExampleBook, "/out", NoFailures, 0, "/out/data.csv", [["a", "b"], ["c", ""]]);
  }

  lemma ExportExampleEmpty()
    ensures SheetExport(ExampleBook, "/out", true, NoFailures, 1)
         == Success(Output(Path("/out/empty.csv"), []))
  {
    EmptyPath();
    BlankSheetWritesNothing(ExampleBook.sheets[1].rows);
    ExportedSheet(ExampleBook, "/out", NoFailures, 1, "/out/empty.csv", []);
  }

  /** A host whose files can be created and closed but not written to. */
  function DiskFull(i: nat): SheetIo { SheetIo(None, Some("disk full"), None) }

  /**
   * On that host a sheet of blank rows is still exported: nothing is
   * buffered, so the flush writes nothing and reports no error.
   */
  lemma BlankSheetOnFullDisk()
    ensures SheetExport(File("b.xlsx", [Sheet("E", [NilRow])]), "/out", false, DiskFull, 0)
         == Success(Output(Path("/out/E.csv"), []))
  {
    assert "/out" + "/" + ("E" + ".csv") == "/out/E.csv";
  }

  /** A sheet with records fails on that host with the write error. */
  lemma DataSheetOnFullDisk()
    ensures SheetExport(ExampleBook, "/out", true, DiskFull, 0) == Failure(WriteFailed("disk full"))
  {
    ConvertRowsExample();
  }

  /**
   * When every sheet's export succeeds, a batch outcome that meets the
   * contract of the batch loop is the list of every sheet's output, without
   * error.
   */
  lemma BatchOfSuccesses(f: File, dir: string, lowerCase: bool, io: nat -> SheetIo,
                         outs: seq<Output>, log: seq<Output>, err: Option<Error>)
    requires |outs| == f.SheetCount()
    requires forall i :: 0 <= i < |outs| ==> SheetExport(f, dir, lowerCase, io, i) == Success(outs[i])
    requires |log| <= f.SheetCount()
    requires forall i :: 0 <= i < |log| ==> SheetExport(f, dir, lowerCase, io, i) == Success(log[i])
    requires err.None? <==> |log| == f.SheetCount()
    requires err.Some? ==> SheetExport(f, dir, lowerCase, io, |log|) == Failure(err.value)
    ensures log == outs && err.None?
  {
  }

  /** What the two sheets of the example export to. */
  const ExampleOutputs := [Output(Path("/out/data.csv"), [["a", "b"], ["c", ""]]), Output(Path("/out/empty.csv"), [])]

  lemma ExampleExports()
    ensures |ExampleOutputs| == ExampleBook.SheetCount()
    ensures forall i :: 0 <= i < |ExampleOutputs| ==>
      SheetExport(ExampleBook, "/out", true, NoFailures, i) == Success(ExampleOutputs[i])
  {
    forall i | 0 <= i < |ExampleOutputs|
      ensures SheetExport(ExampleBook, "/out", true, NoFailures, i) == Success(ExampleOutputs[i])
    {
      if i == 0 {
        ExportExampleData();
      } else {
        ExportExampleEmpty();
      }
    }
  }

  /**
   * The whole batch over the example workbook: both sheets are exported, in
   * order, to /out/data.csv and /out/empty.csv, and no error is reported.
   */
  method ExportExampleBook() returns (log: seq<Output>, err: Option<Error>)
    ensures log == ExampleOutputs
    ensures err.None?
  {
    log, err := GenerateCSVsFromAllSheets(ExampleBook, "/out", NoFailures, true);
    ExampleExports();
    BatchOfSuccesses(ExampleBook, "/out", true, NoFailures, ExampleOutputs, log, err);
  }
}
