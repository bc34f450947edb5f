/**
 * Exporting every sheet of a workbook, in order, each to a file named
 * after the sheet. File creation, writing and closing are done by the host;
 * what each of them reports for a sheet is an input here.
 */
module BatchExport {
  import opened Outcomes
  import opened Workbooks
  import opened FilenameNormalizer
  import opened OutFile
  import opened SheetConverter

  /**
   * What the host reports for one sheet's file: creating it, writing bytes
   * to it (asked for only when the writer has something to flush), closing it.
   */
  datatype SheetIo = SheetIo(createError: Option<string>, writeError: Option<string>, closeError: Option<string>)

  /** One finished export: where the sheet went and the records written there. */
  datatype Output = Output(dest: Destination, records: seq<Record>)

  /** The file name for a sheet: its name plus ".csv", normalised when asked. */
  function SheetFilename(name: string, lowerCase: bool): (f: string)
    ensures |f| >= 4 && f[|f| - 4..] == ".csv"
    ensures !lowerCase ==> f == name + ".csv"
    ensures lowerCase ==> f == Normalize(name) + ".csv"
    ensures lowerCase ==> forall i :: 0 <= i < |f| ==> IsSafe(f[i])
  {
    if lowerCase then
      NormalizeCsvName(name);
      Normalize(name + ".csv")
    else
      name + ".csv"
  }

  /**
   * The outcome of exporting sheet `i` on its own: its destination and
   * records, or the first error among creating the file, converting the
   * rows, flushing the writer and closing the file.
   */
  function SheetExport(f: File, dir: string, lowerCase: bool, io: nat -> SheetIo, i: nat): Result<Output, Error>
    requires i < f.SheetCount()
  {
    var dest := GetOutFile(SheetFilename(f.sheets[i].name, lowerCase), dir);
    var c := ConvertRows(f.sheets[i].rows);
    if dest.Path? && io(i).createError.Some? then Failure(CreateFailed(dest.path, io(i).createError.value))
    else if c.failure.Some? then Failure(c.failure.value)
    else if io(i).writeError.Some? && c.records != [] then Failure(WriteFailed(io(i).writeError.value))
    else if io(i).closeError.Some? then Failure(CloseFailed(io(i).closeError.value))
    else Success(Output(dest, c.records))
  }

  /**
   * A sheet's export succeeds exactly when creating and closing its file
   * succeed, every row can be formatted, and writing succeeds or the sheet
   * has no record to write; it then goes to the file named after the
   * sheet, in the output directory, and holds the sheet's records.
   * Otherwise the error is the first of: creating the file, a cell,
   * flushing, closing.
   */
  lemma SheetExportOutcome(f: File, dir: string, lowerCase: bool, io: nat -> SheetIo, i: nat)
    requires i < f.SheetCount()
    ensures var r := SheetExport(f, dir, lowerCase, io, i);
      && (r.Success? <==>
            && io(i).createError.None? && io(i).closeError.None?
            && (io(i).writeError.None? || ConvertRows(f.sheets[i].rows).records == [])
            && ConvertRows(f.sheets[i].rows).failure.None?)
      && (r.Success? ==>
            r.value == Output(Path(JoinPath(dir, SheetFilename(f.sheets[i].name, lowerCase))),
                              ConvertRows(f.sheets[i].rows).records))
      && (io(i).createError.Some? ==>
            r == Failure(CreateFailed(JoinPath(dir, SheetFilename(f.sheets[i].name, lowerCase)), io(i).createError.value)))
      && (io(i).createError.None? && ConvertRows(f.sheets[i].rows).failure.Some? ==>
            r == Failure(ConvertRows(f.sheets[i].rows).failure.value))
      && (io(i).createError.None? && ConvertRows(f.sheets[i].rows).failure.None?
          && io(i).writeError.Some? && ConvertRows(f.sheets[i].rows).records != [] ==>
            r == Failure(WriteFailed(io(i).writeError.value)))
  {
  }

  /**
   * One pass of the export loop: create the sheet's file, convert the
   * sheet into it, close it.
   */
  method ExportSheet(f: File, dir: string, lowerCase: bool, io: nat -> SheetIo, i: nat, name: string)
    returns (r: Result<Output, Error>)
    requires i < f.SheetCount() && name == f.sheets[i].name
    ensures r == SheetExport(f, dir, lowerCase, io, i)
  {
    var filename := name + ".csv";
    if lowerCase {
      filename := Normalize(filename);
    }
    assert filename == SheetFilename(f.sheets[i].name, lowerCase);
    var dest := GetOutFile(filename, dir);
    if dest.Path? && io(i).createError.Some? {
      return Failure(CreateFailed(dest.path, io(i).createError.value));
    }
    var sink := new RecordSink(io(i).writeError, io(i).closeError);
    var e := GenerateCSVFromSheet(f, sink, i);
    if e.Some? {
      return Failure(e.value);
    }
    e := sink.Close();
    if e.Some? {
      return Failure(e.value);
    }
    assert sink.records == ConvertRows(f.sheets[i].rows).records;
    r := Success(Output(dest, sink.records));
  }

  /**
   * Export every sheet in ascending index order, stopping at the first
   * sheet that fails. The log holds the sheets finished before that one.
   */
  method GenerateCSVsFromAllSheets(f: File, dir: string, io: nat -> SheetIo, lowerCase: bool)
    returns (log: seq<Output>, err: Option<Error>)
    ensures |log| <= f.SheetCount()
    ensures forall i :: 0 <= i < |log| ==> SheetExport(f, dir, lowerCase, io, i) == Success(log[i])
    ensures err.None? <==> |log| == f.SheetCount()
    ensures err.Some? ==> SheetExport(f, dir, lowerCase, io, |log|) == Failure(err.value)
  {
    var keys: seq<string> := [];
    var j := 0;
    while j < |f.sheets|
      invariant 0 <= j <= |f.sheets|
      invariant |keys| == j
      invariant forall k :: 0 <= k < j ==> keys[k] == f.sheets[k].name
    {
      keys := keys + [f.sheets[j].name];
      j := j + 1;
    }

    log := [];
    var i := 0;
    while i < f.SheetCount()
      invariant 0 <= i <= f.SheetCount()
      invariant |log| == i
      invariant forall k :: 0 <= k < i ==> SheetExport(f, dir, lowerCase, io, k) == Success(log[k])
    {
      var r := ExportSheet(f, dir, lowerCase, io, i, keys[i]);
      if r.Failure? {
        return log, Some(r.error);
      }
      ghost var before := log;
      log := log + [r.value];
      assert forall k :: 0 <= k < i ==> log[k] == before[k];
      i := i + 1;
    }
    err := None;
  }

  /**
   * With normalisation on, names that differ only in characters the
   * normaliser drops or folds share one file name, so the later sheet's
   * file replaces the earlier one's.
   */
  lemma NormalizedNamesCollide(a: string, b: string, c: string)
    requires b != c && NormalizeByChar(b) == NormalizeByChar(c)
    ensures a + b != a + c
    ensures SheetFilename(a + b, true) == SheetFilename(a + c, true)
  {
    assert (a + b)[|a|..] == b && (a + c)[|a|..] == c;
    NormalizeConcat(a, b);
    NormalizeConcat(a, c);
    NormalizeIsPerCharacter(b);
    NormalizeIsPerCharacter(c);
  }

  /** For instance "Sheet(1)" and "Sheet1" are both exported to sheet1.csv. */
  lemma NormalizedNamesCollideExample()
    ensures SheetFilename("Sheet" + "(1)", true) == SheetFilename("Sheet" + "1", true)
  {
    assert NormalizeByChar("(1)") == "1" == NormalizeByChar("1");
    NormalizedNamesCollide("Sheet", "(1)", "1");
  }

  /** Without normalisation, sheets with different names go to different files of the directory. */
  lemma RawNamesDistinct(dir: string, n1: string, n2: string)
    requires n1 != n2
    ensures GetOutFile(SheetFilename(n1, false), dir) != GetOutFile(SheetFilename(n2, false), dir)
  {
    var f1, f2 := SheetFilename(n1, false), SheetFilename(n2, false);
    if GetOutFile(f1, dir) == GetOutFile(f2, dir) {
      JoinPathInjective(dir, f1, f2);
    }
  }

  /** With normalisation on, a sheet's file name is its name rewritten character by character, plus ".csv". */
  lemma SheetFilenameByChar(name: string)
    ensures SheetFilename(name, true) == NormalizeByChar(name) + ".csv"
  {
    NormalizeIsPerCharacter(name);
  }
}
