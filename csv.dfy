/** The CSV export of `save_historical_data`: the text written to the file, one line per
    processed candle row, and a reader for that text that recovers every written column. */
module CandleCsv {
  import opened Wrappers
  import opened Text

  /** The written columns as indices into a row: open time, close time, then the fields
      at 4, 3 and 2 (open, high, low), then close and volume. */
  const ColumnOrder: seq<int> := [0, 1, 4, 3, 2, 5, 6]

  /** The values of one row in the order they are written. */
  function Columns(row: seq<int>): (c: seq<int>)
    requires |row| >= 7
    ensures |c| == |ColumnOrder| && forall k :: 0 <= k < |c| ==> c[k] == row[ColumnOrder[k]]
  {
    [row[0], row[1], row[4], row[3], row[2], row[5], row[6]]
  }

  /** Each value rendered as `str` renders it. */
  function Fields(xs: seq<int>): (fs: seq<string>)
    ensures |fs| == |xs|
    ensures forall i :: 0 <= i < |xs| ==> fs[i] == IntStr(xs[i])
  {
    if xs == [] then [] else [IntStr(xs[0])] + Fields(xs[1..])
  }

  /** A line without its newline: the columns joined by commas. */
  function LineBody(row: seq<int>): string
    requires |row| >= 7
  {
    Join(Fields(Columns(row)), ',')
  }

  function CsvLine(row: seq<int>): string
    requires |row| >= 7
  {
    LineBody(row) + "\n"
  }

  /** The whole file: the lines of all rows, in order. */
  function CsvText(data: seq<seq<int>>): string
    requires forall i :: 0 <= i < |data| ==> |data[i]| >= 7
  {
    if data == [] then "" else CsvLine(data[0]) + CsvText(data[1..])
  }

  /** Writing a comma and the next field extends the joined prefix of the fields by one. */
  lemma WriteField(file: string, fs: seq<string>, k: nat)
    requires 1 <= k < |fs|
    ensures file + Join(fs[..k], ',') + "," + fs[k] == file + Join(fs[..k + 1], ',')
  {
    JoinSnoc(fs[..k], fs[k], ',');
    assert fs[..k + 1] == fs[..k] + [fs[k]];
  }

  lemma {:induction false} CsvTextSnoc(data: seq<seq<int>>, row: seq<int>)
    requires forall i :: 0 <= i < |data| ==> |data[i]| >= 7
    requires |row| >= 7
    ensures CsvText(data + [row]) == CsvText(data) + CsvLine(row)
    decreases |data|
  {
    if data == [] {
      assert (data + [row])[1..] == [];
    } else {
      assert (data + [row])[1..] == data[1..] + [row];
      CsvTextSnoc(data[1..], row);
    }
  }

  /** The text after writing the first `k` fields with a comma before each but the first. */
  function WrittenFields(file: string, fs: seq<string>, k: nat): string
    requires 1 <= k <= |fs|
  {
    if k == 1 then file + fs[0] else WrittenFields(file, fs, k - 1) + "," + fs[k - 1]
  }

  /** Those writes leave the first `k` fields joined by commas after the earlier text. */
  lemma {:induction false} WrittenFieldsJoin(file: string, fs: seq<string>, k: nat)
    requires 1 <= k <= |fs|
    ensures WrittenFields(file, fs, k) == file + Join(fs[..k], ',')
  {
    if k == 1 {
      assert fs[..1] == [fs[0]];
    } else {
      WrittenFieldsJoin(file, fs, k - 1);
      WriteField(file, fs, k - 1);
    }
  }

  /** The writes of one pass of the loop in `save_historical_data`: the fields rendered as
      text, then written in column order with commas between and a newline after. */
  method WriteRow(file: string, row: seq<int>) returns (written: string)
    requires |row| >= 7
    ensures written == file + CsvLine(row)
  {
    var openTime := IntStr(row[0]);
    var closeTime := IntStr(row[1]);
    var low := IntStr(row[2]);
    var high := IntStr(row[3]);
    var openPrice := IntStr(row[4]);
    var close := IntStr(row[5]);
    var volume := IntStr(row[6]);
    ghost var fs := Fields(Columns(row));
    written := file;
    written := written + openTime;
    assert written == WrittenFields(file, fs, 1);
    written := written + ",";
    written := written + closeTime;
    assert written == WrittenFields(file, fs, 2);
    written := written + ",";
    written := written + openPrice;
    assert written == WrittenFields(file, fs, 3);
    written := written + ",";
    written := written + high;
    assert written == WrittenFields(file, fs, 4);
    written := written + ",";
    written := written + low;
    assert written == WrittenFields(file, fs, 5);
    written := written + ",";
    written := written + close;
    assert written == WrittenFields(file, fs, 6);
    written := written + ",";
    written := written + volume;
    assert written == WrittenFields(file, fs, 7);
    written := written + "\n";
    WrittenFieldsJoin(file, fs, 7);
    assert fs[..7] == fs;
  }

  /** The index of the first row with fewer than seven fields, or the number of rows if
      there is none. */
  function FirstShortRow(data: seq<seq<int>>): (k: nat)
    ensures k <= |data|
    ensures forall i :: 0 <= i < k ==> |data[i]| >= 7
    ensures k < |data| ==> |data[k]| < 7
  {
    if data == [] || |data[0]| < 7 then 0 else 1 + FirstShortRow(data[1..])
  }

  /** `save_historical_data` on a file opened for writing, which so starts empty. The rows
      are written one by one; a row with fewer than seven fields makes the reads of
      `row[0]` to `row[6]` raise `IndexError` before any write of that row, so the file then
      holds the lines of the rows before it and `raised` is set. */
  method SaveHistoricalData(data: seq<seq<int>>) returns (written: string, raised: bool)
    ensures raised <==> FirstShortRow(data) < |data|
    ensures written == CsvText(data[..FirstShortRow(data)])
  {
    written := "";
    raised := false;
    for n := 0 to |data|
      invariant n <= FirstShortRow(data)
      invariant written == CsvText(data[..n])
    {
      if |data[n]| < 7 {
        raised := true;
        return;
      }
      written := WriteRow(written, data[n]);
      assert data[..n + 1] == data[..n] + [data[n]];
      CsvTextSnoc(data[..n], data[n]);
    }
  }

  /** With every row at least seven fields long nothing raises and the file holds every
      row's line. */
  lemma {:induction false} AllRowsWritten(data: seq<seq<int>>)
    requires forall i :: 0 <= i < |data| ==> |data[i]| >= 7
    ensures FirstShortRow(data) == |data|
    ensures data[..FirstShortRow(data)] == data
    decreases |data|
  {
    if data != [] {
      AllRowsWritten(data[1..]);
    }
  }

  // ---------------------------------------------------------------------------------
  // Reading the file back

  function ParseFields(fs: seq<string>): Option<seq<int>> {
    if fs == [] then Some([])
    else match (ParseInt(fs[0]), ParseFields(fs[1..]))
      case (Some(x), Some(xs)) => Some([x] + xs)
      case _ => None
  }

  /** A line of exactly seven comma-separated integers. */
  function ParseLine(line: string): Option<seq<int>> {
    var fs := Split(line, ',');
    if |fs| != 7 then None else ParseFields(fs)
  }

  function ParseLines(lines: seq<string>): Option<seq<seq<int>>> {
    if lines == [] then Some([])
    else match (ParseLine(lines[0]), ParseLines(lines[1..]))
      case (Some(r), Some(rs)) => Some([r] + rs)
      case _ => None
  }

  /** A file of newline-terminated lines, each read by `ParseLine`. */
  function ParseCsv(text: string): Option<seq<seq<int>>> {
    var lines := Split(text, '\n');
    if lines[|lines| - 1] != "" then None else ParseLines(lines[..|lines| - 1])
  }

  lemma {:induction false} ParseFieldsOf(xs: seq<int>)
    ensures ParseFields(Fields(xs)) == Some(xs)
    decreases |xs|
  {
    if xs != [] {
      ParseIntStr(xs[0]);
      ParseFieldsOf(xs[1..]);
      assert Fields(xs)[1..] == Fields(xs[1..]);
      assert [xs[0]] + xs[1..] == xs;
    }
  }

  /** One line reads back as the row's columns in written order, and holds no newline. */
  lemma LineRoundTrip(row: seq<int>)
    requires |row| >= 7
    ensures ParseLine(LineBody(row)) == Some(Columns(row))
    ensures '\n' !in LineBody(row)
  {
    var fs := Fields(Columns(row));
    forall i | 0 <= i < |fs|
      ensures ',' !in fs[i] && '\n' !in fs[i]
    {
      IntStrHasNo(Columns(row)[i], ',');
      IntStrHasNo(Columns(row)[i], '\n');
    }
    SplitJoin(fs, ',');
    ParseFieldsOf(Columns(row));
    JoinHasNo(fs, ',', '\n');
  }

  /** The bodies of all lines of the file, in order. */
  function Bodies(data: seq<seq<int>>): (b: seq<string>)
    requires forall i :: 0 <= i < |data| ==> |data[i]| >= 7
    ensures |b| == |data|
  {
    if data == [] then [] else [LineBody(data[0])] + Bodies(data[1..])
  }

  function AllColumns(data: seq<seq<int>>): (c: seq<seq<int>>)
    requires forall i :: 0 <= i < |data| ==> |data[i]| >= 7
    ensures |c| == |data|
  {
    if data == [] then [] else [Columns(data[0])] + AllColumns(data[1..])
  }

  lemma {:induction false} SplitCsvText(data: seq<seq<int>>)
    requires forall i :: 0 <= i < |data| ==> |data[i]| >= 7
    ensures Split(CsvText(data), '\n') == Bodies(data) + [""]
    ensures ParseLines(Bodies(data)) == Some(AllColumns(data))
    decreases |data|
  {
    if data != [] {
      LineRoundTrip(data[0]);
      SplitCsvText(data[1..]);
      SplitFirst(LineBody(data[0]), '\n', CsvText(data[1..]));
      assert CsvText(data) == LineBody(data[0]) + ['\n'] + CsvText(data[1..]);
      assert (Bodies(data) + [""])[1..] == Bodies(data[1..]) + [""];
    }
  }

  /** Writing the rows and reading the file back gives, for every row in order, its seven
      columns in the written order. */
  lemma CsvRoundTrip(data: seq<seq<int>>)
    requires forall i :: 0 <= i < |data| ==> |data[i]| >= 7
    ensures ParseCsv(CsvText(data)) == Some(AllColumns(data))
    ensures forall i :: 0 <= i < |data| ==> AllColumns(data)[i] == Columns(data[i])
  {
    SplitCsvText(data);
    var lines := Bodies(data) + [""];
    assert lines[..|lines| - 1] == Bodies(data);
    AllColumnsAt(data);
  }

  lemma {:induction false} AllColumnsAt(data: seq<seq<int>>)
    requires forall i :: 0 <= i < |data| ==> |data[i]| >= 7
    ensures forall i :: 0 <= i < |data| ==> AllColumns(data)[i] == Columns(data[i])
    decreases |data|
  {
    if data != [] {
      AllColumnsAt(data[1..]);
    }
  }
}
