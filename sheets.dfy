/** A rider list spreadsheet as the Google client presents it to the sync
    tasks: a list of data rows below the header row. Each row holds the
    named columns the list feed reads and writes, and the fifth column,
    where the register app keeps the rider's answer to the event's info
    question.

    Spreadsheet row numbers count the header as row 1, so data row `i`
    (from 0) is spreadsheet row `i + 2`.
 */
module Sheets {
  /** One data row: the list feed's named columns, and column 5. */
  datatype Row = Row(fields: map<string, string>, info: string)

  class RiderList {
    var rows: seq<Row>

    constructor (initial: seq<Row>)
      ensures rows == initial
    {
      rows := initial;
    }

    /** `client.UpdateRow(entry, data)`: the entry's named columns become
        `data`. Column 5 is taken to keep its value: how the client treats
        a headed column missing from `data` is not modelled. */
    method UpdateRow(i: nat, data: map<string, string>)
      requires i < |rows|
      modifies this
      ensures rows == old(rows)[i := Row(data, old(rows)[i].info)]
    {
      rows := rows[i := Row(data, rows[i].info)];
    }

    /** `client.InsertRow(data, key)`: a new row after the last one, with an
        empty column 5. */
    method InsertRow(data: map<string, string>)
      modifies this
      ensures rows == old(rows) + [Row(data, "")]
    {
      rows := rows + [Row(data, "")];
    }

    /** `client.UpdateCell(row, 5, value, key)` for a spreadsheet row that
        holds data. */
    method UpdateInfoCell(sheetRow: nat, value: string)
      requires 2 <= sheetRow <= |rows| + 1
      modifies this
      ensures rows == old(rows)[sheetRow - 2 := Row(old(rows)[sheetRow - 2].fields, value)]
    {
      rows := rows[sheetRow - 2 := Row(rows[sheetRow - 2].fields, value)];
    }
  }
}
