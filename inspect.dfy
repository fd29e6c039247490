/**
  Inspect mode's `dumpFile` (csv2map.go:133-153): read rows until end of
  input or the first read error, printing each row's fields separated by
  tabs and followed by a newline.
 */
module Inspect {
  import opened Wrappers
  import opened Text

  /** An error the csv.Reader reports (a parse error or an I/O error), kept as its text. */
  datatype ReadError = ReadError(message: string)

  /** What one `reader.Read()` call returns: a row, end of input (`io.EOF`), or another error. */
  datatype ReadResult = Row(fields: seq<string>) | Eof | Failed(error: ReadError)

  /**
    The line printed for one row: the fields in order, a tab between
    consecutive fields, then a newline.
   */
  function FormatRow(fields: seq<string>): (line: string)
    ensures |line| >= 1 && line[|line| - 1] == '\n'
    ensures fields == [] ==> line == "\n"
  {
    Join(fields, '\t') + "\n"
  }

  /** The lines printed for a run of rows, one after another. */
  function PrintRows(rows: seq<seq<string>>): string
  {
    if rows == [] then "" else FormatRow(rows[0]) + PrintRows(rows[1..])
  }

  /** The reads that return the given rows, in order. */
  function AsReads(rows: seq<seq<string>>): (rs: seq<ReadResult>)
    ensures |rs| == |rows|
    ensures forall i :: 0 <= i < |rows| ==> rs[i] == Row(rows[i])
  {
    if rows == [] then [] else [Row(rows[0])] + AsReads(rows[1..])
  }

  /** What dumpFile returns and what it printed before returning. */
  datatype DumpResult = DumpResult(error: Option<ReadError>, printed: string)

  /**
    The specification of dumpFile over the answers the reader gives to
    successive reads: a reader that has nothing more to give answers `io.EOF`.
   */
  function Dump(answers: seq<ReadResult>): DumpResult
  {
    if answers == [] then DumpResult(None, "")
    else match answers[0]
      case Eof => DumpResult(None, "")
      case Failed(e) => DumpResult(Some(e), "")
      case Row(fields) =>
        var rest := Dump(answers[1..]);
        DumpResult(rest.error, FormatRow(fields) + rest.printed)
  }

  /**
    dumpFile: the reader's successive answers are `answers`, then `io.EOF`
    forever. Each row is printed field by field; the loop ends at `io.EOF`
    (returning nil) or at the first other error (returning it).
   */
  method DumpFile(answers: seq<ReadResult>) returns (err: Option<ReadError>, printed: string)
    ensures DumpResult(err, printed) == Dump(answers)
  {
    printed := "";
    var i := 0;
    while true
      invariant 0 <= i <= |answers|
      invariant Dump(answers) == DumpResult(Dump(answers[i..]).error, printed + Dump(answers[i..]).printed)
      decreases |answers| - i
    {
      var read := if i < |answers| then answers[i] else Eof;
      if read.Eof? {
        break;
      }
      if read.Failed? {
        return Some(read.error), printed;
      }
      DumpRowStep(answers, i);
      var line := PrintFields(read.fields);
      printed := printed + line + "\n";
      i := i + 1;
    }
    err := None;
  }

  /** The fields of one row, printed one by one with a tab before every field but the first. */
  method PrintFields(fields: seq<string>) returns (text: string)
    ensures text == Join(fields, '\t')
  {
    text := "";
    for j := 0 to |fields|
      invariant text == Join(fields[..j], '\t')
    {
      if j > 0 {
        text := text + "\t";
        JoinSnoc(fields[..j], fields[j], '\t');
        assert fields[..j + 1] == fields[..j] + [fields[j]];
      } else {
        assert fields[..1] == [fields[0]];
      }
      text := text + fields[j];
    }
    assert fields[..|fields|] == fields;
  }

  /** A row read at position `i` is printed before whatever the later reads produce. */
  lemma DumpRowStep(answers: seq<ReadResult>, i: nat)
    requires i < |answers| && answers[i].Row?
    ensures Dump(answers[i..]) == DumpResult(Dump(answers[i + 1..]).error, FormatRow(answers[i].fields) + Dump(answers[i + 1..]).printed)
  {
    assert answers[i..][1..] == answers[i + 1..];
  }

  /** A run of rows is printed in full, followed by whatever the reads after it produce. */
  lemma {:induction false} DumpRowsThen(rows: seq<seq<string>>, tail: seq<ReadResult>)
    ensures Dump(AsReads(rows) + tail) == DumpResult(Dump(tail).error, PrintRows(rows) + Dump(tail).printed)
  {
    if rows != [] {
      assert (AsReads(rows) + tail)[1..] == AsReads(rows[1..]) + tail;
      DumpRowsThen(rows[1..], tail);
    } else {
      assert AsReads(rows) + tail == tail;
    }
  }

  /** End of input ends the dump normally; nothing after it is read. */
  lemma StopsAtEof(rows: seq<seq<string>>, unread: seq<ReadResult>)
    ensures Dump(AsReads(rows) + [Eof] + unread) == DumpResult(None, PrintRows(rows))
  {
    assert AsReads(rows) + [Eof] + unread == AsReads(rows) + ([Eof] + unread);
    DumpRowsThen(rows, [Eof] + unread);
  }

  /** The first read error ends the dump with that error, printing nothing for that read and reading no further. */
  lemma StopsAtError(rows: seq<seq<string>>, e: ReadError, unread: seq<ReadResult>)
    ensures Dump(AsReads(rows) + [Failed(e)] + unread) == DumpResult(Some(e), PrintRows(rows))
  {
    assert AsReads(rows) + [Failed(e)] + unread == AsReads(rows) + ([Failed(e)] + unread);
    DumpRowsThen(rows, [Failed(e)] + unread);
  }

  // ----- reading the dump back -----

  /** The rows a dump's text shows: each newline-terminated line split at its tabs. */
  function ParseDump(text: string): seq<seq<string>>
    decreases |text|
  {
    if '\n' !in text then []
    else
      var i := IndexOf(text, '\n');
      [Split(text[..i], '\t')] + ParseDump(text[i + 1..])
  }

  /** A row whose fields can be told apart in the dump: at least one field, none holding a tab or a newline. */
  predicate Printable(fields: seq<string>)
  {
    |fields| >= 1 && Avoids(fields, '\t') && Avoids(fields, '\n')
  }

  /** The printed line of a printable row reads back as that row. */
  lemma FormatRowRoundTrip(fields: seq<string>)
    requires Printable(fields)
    ensures ParseDump(FormatRow(fields)) == [fields]
  {
    var line := Join(fields, '\t');
    JoinAvoids(fields, '\t', '\n');
    SplitJoin(fields, '\t');
    var text := FormatRow(fields);
    assert text[|line|] == '\n' && text[..|line|] == line;
    assert IndexOf(text, '\n') == |line|;
    assert text[|line| + 1..] == [];
  }

  /** What dumpFile prints for printable rows reads back as exactly those rows, in order. */
  lemma {:induction false} PrintRowsRoundTrip(rows: seq<seq<string>>)
    requires forall i :: 0 <= i < |rows| ==> Printable(rows[i])
    ensures ParseDump(PrintRows(rows)) == rows
  {
    if rows != [] {
      var line := Join(rows[0], '\t');
      JoinAvoids(rows[0], '\t', '\n');
      SplitJoin(rows[0], '\t');
      var text := PrintRows(rows);
      assert text == line + ("\n" + PrintRows(rows[1..]));
      assert text[|line|] == '\n' && text[..|line|] == line;
      assert IndexOf(text, '\n') == |line|;
      assert text[|line| + 1..] == PrintRows(rows[1..]);
      PrintRowsRoundTrip(rows[1..]);
    }
  }

  /** An empty row and a row of one empty field print the same line, so a row needs a field to read back. */
  lemma EmptyRowsLookAlike()
    ensures FormatRow([]) == FormatRow([""]) == "\n"
  {
  }
}
