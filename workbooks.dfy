/**
 * The workbook as the exporter sees it once the spreadsheet library has
 * parsed it: sheets of rows of cells, each cell already resolved to its
 * formatted text or to the error the library reports for it.
 */
module Workbooks {
  /** A cell as `FormattedValue` reports it: its text, or a formatting error. */
  datatype Cell = Formatted(text: string) | FormatError(reason: string)

  /** A row handed to the row callback: nil, or its cells in column order. */
  datatype Row = NilRow | Cells(cells: seq<Cell>)

  datatype Sheet = Sheet(name: string, rows: seq<Row>)

  /** The opened workbook and the path it came from. */
  datatype File = File(path: string, sheets: seq<Sheet>) {
    /** The number of sheets; it is zero exactly when the workbook has none. */
    function SheetCount(): (count: nat)
      ensures count == 0 <==> sheets == []
    { |sheets| }
  }

  /** One delimited record: a field per cell. */
  type Record = seq<string>

  /** The errors the exporter returns. */
  datatype Error =
    | NoSheet(index: int, last: int)          // index out of range; valid indices are 0..last
    | CellFormat(reason: string)              // a cell's value could not be formatted
    | CreateFailed(path: string, reason: string)
    | WriteFailed(reason: string)             // reported by the record writer at flush
    | CloseFailed(reason: string)
}
