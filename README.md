# xlsx2csv export core, modelled in Dafny

This project models the export core of xlsx2csv, a tool that turns the
sheets of an Excel workbook into delimited text files. The core lives in
`xlsx/xlsx.go` and has four parts:

- `normalizeFilename` rewrites a sheet name into a safe file name. It
  lowercases the name, turns spaces into `_`, and deletes everything
  outside `[a-zA-Z0-9_.]`.
- `GetOutFile` chooses where one export goes. With no filename, or the
  filename `-`, it goes to standard output. Otherwise it goes to
  `dir + "/" + filename`, or just `filename` when the directory is empty.
- `GenerateCSVFromSheet` writes one sheet as records. It first checks the
  index against the sheet count. It then walks the rows in order. A nil
  row or a row whose values are all empty writes nothing. Any other row is
  written with exactly its formatted values. The first cell that cannot be
  formatted aborts the sheet. A run without such a cell ends with a flush
  of the writer. A flush with nothing buffered writes nothing, so it
  cannot fail.
- `GenerateCSVsFromAllSheets` exports every sheet, in ascending index
  order, to a file named after the sheet plus `.csv`. The name is
  normalised when asked. The first failure stops the batch, and the batch
  does not undo the exports of earlier sheets.

Files:

- `outcomes.dfy`: the `Option` and `Result` wrappers.
- `workbooks.dfy`: workbooks, sheets, rows and cells, the records written,
  and the errors.
- `normalize.dfy`: the normaliser as the three steps of the source, and a
  one-pass, character-by-character reference definition.
- `outfile.dfy`: the choice of destination.
- `converter.dfy`: the conversion of one sheet. The pure functions say
  which records a sheet yields. The methods are the cell and row loops of
  the source. They write to a `RecordSink` object, which stands for the
  CSV writer and the output file behind it: records handed to the writer
  wait in its buffer, and only a flush delivers them to the file.
- `batch.dfy`: the per-sheet step as a function, and the batch loop as a
  method proved against it.
- `examples.dfy`: the end-to-end example, a two-sheet workbook exported
  to `/out`, and single sheets on a host whose files cannot be written.

The host's file system is an input. For each sheet index, a `SheetIo`
value says whether creating the file, writing to it, or closing it
fails, and with which message. Writing is asked for only when the writer
has something buffered.

## Model

| member | source | states |
|---|---|---|
| FilenameNormalizer.LowerChar | xlsx/xlsx.go:140 | lowercasing maps `A`-`Z` onto `a`-`z` at the same offset and leaves every other character alone |
| FilenameNormalizer.ToLower | xlsx/xlsx.go:140 | step 1, lowercasing the whole name one character at a time; its contract is ToLowerPointwise |
| FilenameNormalizer.ToLowerPointwise | xlsx/xlsx.go:140 | lowercasing keeps the length, and each character of the result is the lowercased character at the same position |
| FilenameNormalizer.SpacesToUnderscores | xlsx/xlsx.go:143-144 | step 2, replacing every space with `_`; its contract is SpacesToUnderscoresPointwise |
| FilenameNormalizer.SpacesToUnderscoresPointwise | xlsx/xlsx.go:143-144 | replacing spaces keeps the length; each space becomes `_` and every other character stays where it is |
| FilenameNormalizer.DeleteDisallowed | xlsx/xlsx.go:147-148 | step 3, deleting every character outside `[a-zA-Z0-9_.]`; its contracts are DeleteDisallowedCounts and DeleteDisallowedKeepsAllowed |
| FilenameNormalizer.DeleteDisallowedCounts | xlsx/xlsx.go:147-148 | every allowed character occurs in the result exactly as often as in the input, and no other character is left |
| FilenameNormalizer.DeleteDisallowedConcat | xlsx/xlsx.go:147-148 | deleting from `a + b` gives the deletion from `a` followed by the deletion from `b`, so the kept characters stay in their order |
| FilenameNormalizer.DeleteDisallowedKeepsAllowed | xlsx/xlsx.go:147-148 | a string made only of allowed characters is left unchanged |
| FilenameNormalizer.Normalize | xlsx/xlsx.go:139-151 | the normalised name is never longer than the input, and every character of it is in `[a-z0-9_.]` |
| FilenameNormalizer.StagesArePerCharacter | xlsx/xlsx.go:140-148 | lowercasing, replacing spaces and deleting disallowed characters, applied in that order, equal the one-pass character-by-character rewriting |
| FilenameNormalizer.NormalizeIsPerCharacter | xlsx/xlsx.go:140-148 | the three steps together rewrite each character on its own: a space becomes `_`, a character whose lowercase form is allowed becomes that form, anything else is deleted |
| FilenameNormalizer.NormalizeByCharSafe | xlsx/xlsx.go:147-148 | the character-by-character rewriting yields at most one character per input character, each in `[a-z0-9_.]` |
| FilenameNormalizer.NormalizeByCharConcat | xlsx/xlsx.go:140-148 | the character-by-character rewriting distributes over concatenation |
| FilenameNormalizer.NormalizeConcat | xlsx/xlsx.go:139-151 | normalising `a + b` gives the normalised `a` followed by the normalised `b` |
| FilenameNormalizer.NormalizeCsvName | xlsx/xlsx.go:114-116 | normalising `name + ".csv"` keeps the `.csv` extension: it equals the normalised name plus `.csv` |
| FilenameNormalizer.NormalizeFixedPoints | xlsx/xlsx.go:139-151 | a name is left unchanged if and only if every character of it is in `[a-z0-9_.]` |
| FilenameNormalizer.NormalizeIdempotent | xlsx/xlsx.go:139-151 | normalising twice gives the same name as normalising once |
| FilenameNormalizer.NormalizeExamples | xlsx/xlsx.go:139-151 | `Sheet One (Q1).csv` becomes `sheet_one_q1.csv`, and the empty name stays empty |
| OutFile.JoinPath | xlsx/xlsx.go:43-46 | the path starts with the directory, has a `/` right after it when the directory is non-empty, and ends with the filename; no separator is added or removed otherwise |
| OutFile.GetOutFile | xlsx/xlsx.go:40-52 | the destination is standard output if and only if the filename is `""` or `"-"`; otherwise it is the joined path |
| OutFile.JoinPathInjective | xlsx/xlsx.go:43-46 | within one directory, different filenames give different paths |
| OutFile.GetOutFileExamples | xlsx/xlsx.go:40-52 | standard output for `-` and `""`; `data.csv` in `""`, `/out` and `/out/` gives `data.csv`, `/out/data.csv` and `/out//data.csv` (a trailing slash is not stripped) |
| Workbooks.File.SheetCount | xlsx/xlsx.go:34-37 | the number of sheets in the workbook; it is zero exactly when the workbook has no sheet |
| SheetConverter.FormatCells | xlsx/xlsx.go:75-85 | the cell loop succeeds if and only if every cell formats; it then yields one value per cell, in column order, each the cell's formatted text; a failure is a cell-format error |
| SheetConverter.RowOutcome | xlsx/xlsx.go:70-93 | the row callback as a function: an error, nothing, or one record; its contract is RowOutcomeCases |
| SheetConverter.RowOutcomeCases | xlsx/xlsx.go:70-93 | a row fails if and only if one of its cells fails to format; it yields a record if and only if it is not nil, all its cells format and some value is non-empty; that record is exactly the row's values, without padding |
| SheetConverter.ConvertRows | xlsx/xlsx.go:70-94 | the row loop as a function: the records handed to the writer and the error that stopped the loop; its contracts are ConvertRowsShape, ConvertRowsConcat and the lemmas below |
| SheetConverter.ConvertRowsShape | xlsx/xlsx.go:70-98 | a sheet yields at most one record per row, each with a non-empty value; it fails if and only if some row fails, and only with a cell-format error |
| SheetConverter.FormatCellsFirstError | xlsx/xlsx.go:75-79 | the cell loop fails with the error of the first cell that cannot be formatted |
| SheetConverter.FormatCellsConcat | xlsx/xlsx.go:75-85 | the cell loop over `a + b` is the loop over `a`, then over `b`, stopping at the first error |
| SheetConverter.ConvertRowsConcat | xlsx/xlsx.go:70-94 | the row loop over `a + b` is the loop over `a`, continued over `b` unless `a` failed: records are kept in order |
| SheetConverter.ConvertRowsAppend | xlsx/xlsx.go:90-93 | after a prefix of rows that did not fail, a next row that formats adds nothing when blank and otherwise appends its record at the end |
| SheetConverter.ConvertRowsStopsAt | xlsx/xlsx.go:86-88 | after a prefix of rows that did not fail, a failing row ends the sheet with its error, keeping exactly the prefix's records |
| SheetConverter.BlankRowIgnored | xlsx/xlsx.go:72-93 | removing a nil or all-empty row from anywhere in a sheet changes neither the records nor the outcome |
| SheetConverter.BlankSheetWritesNothing | xlsx/xlsx.go:72-93 | a sheet made only of nil and all-empty rows writes no record and does not fail |
| SheetConverter.FirstFailingRowStops | xlsx/xlsx.go:76-79 | the first row with a cell that cannot be formatted ends the sheet with that row's error, keeping exactly the records of the rows before it |
| SheetConverter.ConvertRowsExample | xlsx/xlsx.go:70-94 | the rows `a,b` / empty / `c,` give the records `a,b` and `c,`: the empty row is dropped and the trailing empty value is kept |
| SheetConverter.HasNonEmptySnoc | xlsx/xlsx.go:80-83 | appending a value leaves a non-empty value in the record exactly when one was there or the new value is non-empty |
| SheetConverter.RecordSink.constructor | xlsx/xlsx.go:64 | a new CSV writer over a freshly created file: the file and the writer's buffer are both empty, and the file's write and close outcomes are the given ones |
| SheetConverter.RecordSink.Write | xlsx/xlsx.go:91 | handing a record to the writer appends it to the writer's buffer; the file is not touched |
| SheetConverter.RecordSink.Flush | xlsx/xlsx.go:100-101 | when the file can be written or nothing is buffered, flushing appends the whole buffer to the file, empties the buffer and reports no error; when something is buffered and the file cannot be written, the file and the buffer are unchanged and the write error is returned |
| SheetConverter.RecordSink.Close | xlsx/xlsx.go:129-132 | closing fails if and only if the destination reports a close error, and then returns it |
| SheetConverter.FormatRow | xlsx/xlsx.go:71-89 | the row callback's cell loop returns the row's error exactly when the row fails; the found-non-empty flag and the values say whether the row yields a record and which |
| SheetConverter.WriteRows | xlsx/xlsx.go:70-98 | the row loop hands the writer exactly the records of the sheet, in order, returns the sheet's first error, and leaves the file untouched |
| SheetConverter.GenerateCSVFromSheet | xlsx/xlsx.go:55-102 | an index at or past the sheet count fails with that index and the last valid index, `SheetCount - 1`, before anything is written; a sheet with a failing row returns that row's error without a flush, so the file gets none of its records; a sheet without one is flushed, so the file gets all its records in order; the flush fails with the write error only when the buffer and the sheet's records are not both empty |
| BatchExport.SheetFilename | xlsx/xlsx.go:114-117 | a sheet's file name always ends in `.csv`; it is the sheet name plus `.csv` without the flag, and the normalised name plus `.csv`, made only of `[a-z0-9_.]`, with it |
| BatchExport.SheetFilenameByChar | xlsx/xlsx.go:114-117 | with the flag, the file name is the sheet name rewritten character by character, plus `.csv` |
| BatchExport.NormalizedNamesCollide | xlsx/xlsx.go:114-116 | with normalisation on, two different names that differ only in a part whose rewritings agree get the same file name |
| BatchExport.NormalizedNamesCollideExample | xlsx/xlsx.go:114-116 | with normalisation on, `Sheet(1)` and `Sheet1` both become `sheet1.csv` |
| BatchExport.RawNamesDistinct | xlsx/xlsx.go:114-119 | without normalisation, sheets with different names go to different destinations in the same directory |
| BatchExport.SheetExport | xlsx/xlsx.go:113-133 | one pass of the batch loop as a function: the sheet's destination and records, or the first error; its contract is SheetExportOutcome |
| BatchExport.SheetExportOutcome | xlsx/xlsx.go:113-133 | one sheet's export succeeds if and only if creating and closing its file succeed, no cell fails, and writing succeeds or the sheet has no record; it then writes the sheet's records to `dir/filename`; a failed create, then a failed cell, then a failed write of a non-empty sheet take precedence |
| BatchExport.ExportSheet | xlsx/xlsx.go:114-133 | one pass of the batch loop computes exactly the per-sheet export outcome |
| BatchExport.GenerateCSVsFromAllSheets | xlsx/xlsx.go:105-136 | sheets are exported in ascending order; the log holds, in order, the outputs of the sheets that finished; there is no error if and only if every sheet finished; otherwise the error is that of the first sheet that did not |
| ExportExamples.BatchOfSuccesses | xlsx/xlsx.go:105-136 | when every sheet's export succeeds, any outcome the batch loop's contract allows is the list of all the sheets' outputs, in order, with no error |
| ExportExamples.ExportExampleData | xlsx/xlsx.go:113-134 | the sheet `Data` exported to `/out` with normalised names goes to `/out/data.csv` with the records `a,b` and `c,` |
| ExportExamples.ExportExampleEmpty | xlsx/xlsx.go:113-134 | the sheet `Empty`, of blank and nil rows only, goes to `/out/empty.csv` with no record |
| ExportExamples.ExampleExports | xlsx/xlsx.go:113-134 | each sheet of the example workbook exports to its entry of the expected outputs |
| ExportExamples.BlankSheetOnFullDisk | xlsx/xlsx.go:100-101 | on a host whose files cannot be written, a sheet of one nil row is still exported, to `/out/E.csv` with no record |
| ExportExamples.DataSheetOnFullDisk | xlsx/xlsx.go:100-101 | on the same host, the example's `Data` sheet, which has records, fails with the write error |
| ExportExamples.ExportExampleBook | xlsx/xlsx.go:105-136 | the whole batch over the example workbook writes `/out/data.csv` and then `/out/empty.csv`, and reports no error |

## Left out

- Opening the workbook (`New`, `OpenFile`) is not part of this model; a workbook is given as a value.
- The spreadsheet library's own behaviour is not modelled. That covers cell formatting (`FormattedValue`), which is an input (each cell is a formatted text or an error), and the `SkipEmptyRows` iteration option, where it is assumed that skipped rows would not have been written anyway.
- CSV encoding (quoting, delimiters) and the `csvOptSetter` hook are left out; a record is modelled as the list of its values.
- Real I/O is not modelled: creating, flushing and closing a file are per-sheet inputs.
- FilenameNormalizer.LowerChar: lowercases ASCII letters only, not full Unicode. For example, a Kelvin sign, which Go lowercases to `k`, is deleted here instead.
- SheetConverter.GenerateCSVFromSheet: the index is a natural number. A negative index, which makes the source panic on the slice access, is outside the model.
- SheetConverter.RecordSink.Write: never fails and never reaches the file. The CSV writer's buffer also empties itself into the file whenever it fills (every 4096 bytes), and a write error can then surface early; the model delivers the whole buffer at the flush only, and reports a write error only there.
- SheetConverter.GenerateCSVFromSheet: on a sheet whose output is larger than the writer's buffer, a failing row leaves in the file whatever full buffers were already delivered, possibly ending mid-record; the model's file then holds none of the sheet's records.
- SheetConverter.RecordSink.Flush: when the file cannot be written, nothing of the buffer reaches it; a partial write is not modelled.
- BatchExport.GenerateCSVsFromAllSheets: the list of sheet names has one entry per sheet. The source sizes that loop by the workbook's name-to-sheet map, which holds one entry per sheet as long as sheet names are distinct.
- BatchExport.SheetExport: follows the code. When a sheet fails to convert or to flush, the source returns without closing the file, so the handle leaks on those paths; the model does not track open files, so that leak is not visible in it.
- BatchExport.GenerateCSVsFromAllSheets: the log holds only the outputs of finished sheets. The file of the failing sheet may already have been created, but it is not listed.
- BatchExport.GenerateCSVsFromAllSheets: the log records each sheet's export, not the files as they are in the end. Sheets whose names normalise alike share one path (see NormalizedNamesCollide), and the later sheet's create empties the earlier sheet's file, even when the later sheet then fails; the log still lists the earlier output.
- The text of the out-of-range error message is modelled as the structured value `NoSheet(index, last)`.
- Standard output as a destination cannot arise in the batch, because every sheet's file name ends in `.csv`.
