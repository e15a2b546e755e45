/** What `ParseWingetOutput` (profiTools/wind/WinWinget.xaml.cs, lines
    65-85) makes of the text printed by `winget list`, as values: the
    records it appends, in order. */
module Listing {
  import opened StringSplit
  import opened Records

  /** The characters the output is cut into lines at. */
  const LineBreaks: set<char> := {'\r', '\n'}

  /** The non-empty lines of the output. */
  function Lines(output: string): seq<string>
  {
    Split(output, LineBreaks)
  }

  /** The space-separated words of a line; a tab is part of a word. */
  function Words(line: string): seq<string>
  {
    Split(line, {' '})
  }

  /** `lines.Skip(1)`: all but the header line. */
  function Rows(lines: seq<string>): (rows: seq<string>)
    ensures |rows| == if lines == [] then 0 else |lines| - 1
  {
    if lines == [] then [] else lines[1..]
  }

  /** The record one row adds: one named by its first word, or none when
      the row holds no word. */
  function RowRecords(row: string): seq<ProgramRecord>
  {
    var parts := Words(row);
    if |parts| > 0 then [Unmarked(parts[0])] else []
  }

  /** The records the rows add, in row order. */
  function RowsRecords(rows: seq<string>): (rs: seq<ProgramRecord>)
    ensures |rs| <= |rows|
  {
    if rows == [] then [] else RowRecords(rows[0]) + RowsRecords(rows[1..])
  }

  /** The records `ParseWingetOutput(output)` appends. */
  function Parsed(output: string): seq<ProgramRecord>
  {
    RowsRecords(Rows(Lines(output)))
  }

  /** A line with at least one character other than a space. */
  ghost predicate NonBlank(line: string)
  {
    exists k :: 0 <= k < |line| && line[k] != ' '
  }

  /** The line with its leading spaces removed, cut at the next space. */
  function FirstWord(line: string): string
  {
    TakeUntil(SkipSeparators(line, {' '}), {' '})
  }

  /** Reference reading of the listing, without splitting: every non-blank
      row gives an unmarked record named by its first word. */
  ghost function Expected(rows: seq<string>): seq<ProgramRecord>
  {
    if rows == [] then []
    else
      (if NonBlank(rows[0]) then [Unmarked(FirstWord(rows[0]))] else []) + Expected(rows[1..])
  }

  ghost function CountNonBlank(rows: seq<string>): nat
  {
    if rows == [] then 0 else (if NonBlank(rows[0]) then 1 else 0) + CountNonBlank(rows[1..])
  }

  /** One row adds a record exactly when it is not blank, and the record is
      named by the row's first word. */
  lemma RowRecordsIsExpected(row: string)
    ensures RowRecords(row) == if NonBlank(row) then [Unmarked(FirstWord(row))] else []
  {
    SplitEmptyIff(row, {' '});
    if Words(row) != [] {
      SplitHead(row, {' '});
    }
  }

  /** The parser agrees with the reference reading on every list of rows. */
  lemma {:induction false} RowsRecordsIsExpected(rows: seq<string>)
    ensures RowsRecords(rows) == Expected(rows)
  {
    if rows != [] {
      RowRecordsIsExpected(rows[0]);
      RowsRecordsIsExpected(rows[1..]);
    }
  }

  lemma {:induction false} ExpectedCount(rows: seq<string>)
    ensures |Expected(rows)| == CountNonBlank(rows)
  {
    if rows != [] {
      ExpectedCount(rows[1..]);
    }
  }

  /** The listing yields one record for each non-empty line after the
      first that holds a character other than a space, in line order,
      each named by that line's first word and with no action chosen. */
  lemma ParsedIsExpected(output: string)
    ensures Parsed(output) == Expected(Rows(Lines(output)))
    ensures |Parsed(output)| == CountNonBlank(Rows(Lines(output)))
  {
    RowsRecordsIsExpected(Rows(Lines(output)));
    ExpectedCount(Rows(Lines(output)));
  }

  /** Every name read from the listing is a non-empty word free of spaces,
      and no new record has an action chosen. */
  lemma {:induction false} RowsRecordsWellFormed(rows: seq<string>)
    ensures forall i :: 0 <= i < |RowsRecords(rows)| ==>
      var r := RowsRecords(rows)[i];
      r.name != [] && SeparatorFree(r.name, {' '}) && !r.remove && !r.update
  {
    if rows != [] {
      SplitSeparatorFree(rows[0], {' '});
      RowsRecordsWellFormed(rows[1..]);
    }
  }

  lemma ParsedWellFormed(output: string)
    ensures forall i :: 0 <= i < |Parsed(output)| ==>
      var r := Parsed(output)[i];
      r.name != [] && SeparatorFree(r.name, {' '}) && !r.remove && !r.update
  {
    RowsRecordsWellFormed(Rows(Lines(output)));
  }

  /** Adding a row at the end adds its record at the end; this is the step
      of the parsing loop. */
  lemma {:induction false} RowsRecordsAppend(rows: seq<string>, row: string)
    ensures RowsRecords(rows + [row]) == RowsRecords(rows) + RowRecords(row)
  {
    if rows == [] {
      assert rows + [row] == [row];
    } else {
      assert (rows + [row])[1..] == rows[1..] + [row];
      RowsRecordsAppend(rows[1..], row);
    }
  }

  /** The parsing loop's invariant, carried over one row. */
  lemma RowsRecordsStep(rows: seq<string>, i: nat, before: seq<ProgramRecord>,
                        current: seq<ProgramRecord>, next: seq<ProgramRecord>)
    requires i < |rows|
    requires current == before + RowsRecords(rows[..i])
    requires next == current + RowRecords(rows[i])
    ensures next == before + RowsRecords(rows[..i + 1])
  {
    RowsRecordsAppend(rows[..i], rows[i]);
    assert rows[..i + 1] == rows[..i] + [rows[i]];
  }

  /** Empty output, and output of a single line (the header alone), give
      no record. */
  lemma ParsedSingleLine(output: string)
    requires forall k :: 0 <= k < |output| ==> output[k] !in LineBreaks
    ensures Parsed(output) == []
  {
    SplitNoSeparator(output, LineBreaks);
  }

  /** The header line alone, ended by "\r\n" as `winget list` prints it
      when no row follows, gives no record. */
  lemma ParsedHeaderOnly(header: string)
    requires header != [] && SeparatorFree(header, LineBreaks)
    ensures Parsed(header + "\r\n") == []
  {
    var end := [] + ['\n'] + [];
    assert header + "\r\n" == header + ['\r'] + end;
    SplitNoSeparator([], LineBreaks);
    SplitAtSeparator([], '\n', [], LineBreaks);
    SplitNoSeparator(header, LineBreaks);
    SplitAtSeparator(header, '\r', end, LineBreaks);
    assert Lines(header + ['\r'] + end) == [header];
  }

  /** A header line and one row, each ended by "\r\n": the row gives one
      record, named by its first column; the other columns are dropped.
      Only the space separates words, so a tab in the first column stays
      part of the name. */
  lemma {:induction false} HeaderAndOneRow(header: string, name: string, columns: string)
    requires header != [] && SeparatorFree(header, LineBreaks)
    requires name != [] && SeparatorFree(name, LineBreaks + {' '})
    requires SeparatorFree(columns, LineBreaks)
    ensures Parsed(header + "\r\n" + name + " " + columns + "\r\n") == [Unmarked(name)]
  {
    var row := name + [' '] + columns;
    assert SeparatorFree(row, LineBreaks);
    var end := [] + ['\n'] + [];
    var tail := row + ['\r'] + end;
    var rest := [] + ['\n'] + tail;
    assert header + "\r\n" + name + " " + columns + "\r\n" == header + ['\r'] + rest;
    SplitNoSeparator([], LineBreaks);
    SplitAtSeparator([], '\n', [], LineBreaks);
    SplitNoSeparator(row, LineBreaks);
    SplitAtSeparator(row, '\r', end, LineBreaks);
    SplitAtSeparator([], '\n', tail, LineBreaks);
    SplitNoSeparator(header, LineBreaks);
    SplitAtSeparator(header, '\r', rest, LineBreaks);
    assert Lines(header + ['\r'] + rest) == [header, row];
    SplitAtSeparator(name, ' ', columns, {' '});
    SplitNoSeparator(name, {' '});
    assert Words(row)[0] == name;
  }
}
