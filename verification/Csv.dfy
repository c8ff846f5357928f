/** The CSV reader of the password import: section 2 of RFC 4180, with CR, LF or CRLF ends. */
module Csv {
  import opened SyncModel

  const BYTE_ORDER_MARK := '\U{FEFF}'

  datatype Row = Row(line: nat, fields: seq<string>)

  datatype CsvError =
    | TextAfterQuote(line: nat)
    | QuoteInsideField(line: nat)
    | QuoteNotClosed(line: nat)

  /** The variables of the reader. */
  datatype Scan = Scan(
    rows: seq<Row>,
    fields: seq<string>,
    field: string,
    rowLine: nat,
    line: nat,
    inQuotes: bool,
    afterClosingQuote: bool)

  const START := Scan([], [], "", 1, 1, false, false)

  predicate IsLineBreak(c: char) {
    c == '\r' || c == '\n'
  }

  /** The character at the head ends a physical line. */
  predicate EndsLine(rest: string)
    requires rest != ""
  {
    rest[0] == '\n' || (rest[0] == '\r' && !(|rest| > 1 && rest[1] == '\n'))
  }

  predicate StartsCrLf(rest: string) {
    |rest| > 1 && rest[0] == '\r' && rest[1] == '\n'
  }

  function FinishField(s: Scan): Scan {
    s.(fields := s.fields + [s.field], field := "", afterClosingQuote := false)
  }

  function FinishRow(s: Scan): Scan {
    var f := FinishField(s);
    f.(rows := s.rows + [Row(s.rowLine, f.fields)], fields := [], rowLine := s.line + 1)
  }

  /** One turn of the loop, and how many characters it takes. */
  function Turn(s: Scan, rest: string): (r: Result<(Scan, nat), CsvError>)
    requires rest != ""
    ensures r.Ok? ==> 0 < r.value.1 <= |rest|
  {
    var c := rest[0];
    if s.inQuotes then
      if c == '"' then
        if |rest| > 1 && rest[1] == '"' then Ok((s.(field := s.field + "\""), 2))
        else Ok((s.(inQuotes := false, afterClosingQuote := true), 1))
      else Ok((s.(field := s.field + [c], line := s.line + if EndsLine(rest) then 1 else 0), 1))
    else if s.afterClosingQuote then
      if c == ',' then Ok((FinishField(s), 1))
      else if IsLineBreak(c) then Ok((FinishRow(s).(line := s.line + 1), if StartsCrLf(rest) then 2 else 1))
      else Err(TextAfterQuote(s.line))
    else if c == '"' then
      if s.field != "" then Err(QuoteInsideField(s.line)) else Ok((s.(inQuotes := true), 1))
    else if c == ',' then Ok((FinishField(s), 1))
    else if IsLineBreak(c) then Ok((FinishRow(s).(line := s.line + 1), if StartsCrLf(rest) then 2 else 1))
    else Ok((s.(field := s.field + [c]), 1))
  }

  function ScanFrom(s: Scan, rest: string): Result<Scan, CsvError>
    decreases |rest|
  {
    if rest == "" then Ok(s)
    else
      match Turn(s, rest)
      case Err(e) => Err(e)
      case Ok((next, taken)) => ScanFrom(next, rest[taken..])
  }

  function Finish(s: Scan): Result<seq<Row>, CsvError> {
    if s.inQuotes then Err(QuoteNotClosed(s.rowLine))
    else if s.fields != [] || s.field != "" || s.afterClosingQuote then Ok(FinishRow(s).rows)
    else Ok(s.rows)
  }

  function WithoutMark(input: string): string {
    if input != "" && input[0] == BYTE_ORDER_MARK then input[1..] else input
  }

  function Parse(input: string): Result<seq<Row>, CsvError> {
    match ScanFrom(START, WithoutMark(input))
    case Err(e) => Err(e)
    case Ok(s) => Finish(s)
  }

  lemma OneTurn(s: Scan, rest: string)
    ensures rest == "" ==> ScanFrom(s, rest) == Ok(s)
    ensures rest != "" && Turn(s, rest).Err? ==> ScanFrom(s, rest) == Err(Turn(s, rest).error)
    ensures rest != "" && Turn(s, rest).Ok? ==>
      ScanFrom(s, rest) == ScanFrom(Turn(s, rest).value.0, rest[Turn(s, rest).value.1..])
  {
  }

  method ParseCsv(input: string) returns (r: Result<seq<Row>, CsvError>)
    ensures r == Parse(input)
  {
    var source := WithoutMark(input);
    var rows: seq<Row> := [];
    var fields: seq<string> := [];
    var field := "";
    var rowLine, line := 1, 1;
    var inQuotes, afterClosingQuote := false, false;
    var index := 0;
    hide ScanFrom;
    while index < |source|
      invariant 0 <= index <= |source|
      invariant ScanFrom(START, source)
                == ScanFrom(Scan(rows, fields, field, rowLine, line, inQuotes, afterClosingQuote), source[index..])
    {
      ghost var rest := source[index..];
      ghost var s := Scan(rows, fields, field, rowLine, line, inQuotes, afterClosingQuote);
      OneTurn(s, rest);
      var c := source[index];
      var next := if index + 1 < |source| then Some(source[index + 1]) else None;
      var taken := 1;
      if inQuotes {
        if c == '"' {
          if next == Some('"') {
            field := field + "\"";
            taken := 2;
          } else {
            inQuotes := false;
            afterClosingQuote := true;
          }
        } else {
          field := field + [c];
          if c == '\n' || (c == '\r' && next != Some('\n')) {
            line := line + 1;
          }
        }
      } else if c == ',' {
        fields, field, afterClosingQuote := fields + [field], "", false;
      } else if IsLineBreak(c) {
        if c == '\r' && next == Some('\n') {
          taken := 2;
        }
        rows := rows + [Row(rowLine, fields + [field])];
        fields, field, afterClosingQuote, rowLine := [], "", false, line + 1;
        line := line + 1;
      } else if afterClosingQuote {
        return Err(TextAfterQuote(line));
      } else if c == '"' {
        if field != "" {
          return Err(QuoteInsideField(line));
        }
        inQuotes := true;
      } else {
        field := field + [c];
      }
      assert Turn(s, rest) == Ok((Scan(rows, fields, field, rowLine, line, inQuotes, afterClosingQuote), taken));
      hide Turn;
      assert rest[taken..] == source[index + taken..];
      index := index + taken;
    }
    assert source[index..] == "";
    OneTurn(Scan(rows, fields, field, rowLine, line, inQuotes, afterClosingQuote), "");
    if inQuotes {
      return Err(QuoteNotClosed(rowLine));
    }
    if fields != [] || field != "" || afterClosingQuote {
      rows := rows + [Row(rowLine, fields + [field])];
    }
    return Ok(rows);
  }

  /******* Writing a table *******/

  /** A field as it may be written: in quotes, or bare if it holds nothing that needs them. */
  datatype Cell = Quoted(text: string) | Bare(text: string)

  predicate NeedsQuotes(c: char) {
    c == '"' || c == ',' || IsLineBreak(c)
  }

  predicate Writable(cell: Cell) {
    cell.Bare? ==> forall k :: 0 <= k < |cell.text| ==> !NeedsQuotes(cell.text[k])
  }

  datatype LineEnd = Cr | Lf | CrLf

  /** A written line has a field, and a field that needs quotes has them. */
  predicate WritableLine(cells: seq<Cell>) {
    cells != [] && forall k :: 0 <= k < |cells| ==> Writable(cells[k])
  }

  datatype Line = Line(cells: seq<Cell>, end: LineEnd)

  predicate WritableLines(lines: seq<Line>) {
    forall k :: 0 <= k < |lines| ==> WritableLine(lines[k].cells)
  }

  function Escaped(text: string): string {
    if text == "" then "" else (if text[0] == '"' then "\"\"" else [text[0]]) + Escaped(text[1..])
  }

  function CellText(cell: Cell): string {
    if cell.Bare? then cell.text else "\"" + Escaped(cell.text) + "\""
  }

  function CellsText(cells: seq<Cell>): string
    requires cells != []
  {
    if |cells| == 1 then CellText(cells[0]) else CellText(cells[0]) + "," + CellsText(cells[1..])
  }

  function EndText(end: LineEnd): string {
    match end case Cr => "\r" case Lf => "\n" case CrLf => "\r\n"
  }

  function LineText(l: Line): string
    requires WritableLine(l.cells)
  {
    CellsText(l.cells) + EndText(l.end)
  }

  function LinesText(lines: seq<Line>): string
    requires WritableLines(lines)
  {
    if lines == [] then "" else LineText(lines[0]) + LinesText(lines[1..])
  }

  function Texts(cells: seq<Cell>): (r: seq<string>)
    ensures |r| == |cells| && forall k :: 0 <= k < |r| ==> r[k] == cells[k].text
  {
    seq(|cells|, k requires 0 <= k < |cells| => cells[k].text)
  }

  /** Physical line breaks: every LF, and every CR that no LF follows. */
  function LineBreaks(text: string): nat {
    if text == "" then 0 else LineBreaks(text[1..]) + if EndsLine(text) then 1 else 0
  }

  predicate StartsWith(text: string, c: char) {
    text != "" && text[0] == c
  }

  /** A line that ends in CR is not followed by an LF, which would be taken as part of its end. */
  predicate EndsApart(lines: seq<Line>, tail: string)
    requires WritableLines(lines)
  {
    lines == [] ||
    ((lines[0].end.Cr? ==> !StartsWith(LinesText(lines[1..]) + tail, '\n')) && EndsApart(lines[1..], tail))
  }

  /******* Line breaks *******/

  lemma {:induction false} LineBreaksJoin(a: string, b: string)
    requires a != "" && a[|a| - 1] == '\r' ==> !StartsWith(b, '\n')
    ensures LineBreaks(a + b) == LineBreaks(a) + LineBreaks(b)
  {
    if a == "" {
      assert a + b == b;
    } else {
      LineBreaksJoin(a[1..], b);
      assert (a + b)[1..] == a[1..] + b;
      assert EndsLine(a + b) == EndsLine(a) by {
        if |a| == 1 {
          assert (a + b)[1..] == b;
        } else {
          assert (a + b)[1] == a[1];
        }
      }
    }
  }

  lemma {:induction false} BareHasNoBreaks(text: string)
    requires Writable(Bare(text))
    ensures LineBreaks(text) == 0
  {
    if text != "" {
      assert forall k :: 0 <= k < |text[1..]| ==> text[1..][k] == text[k + 1];
      assert !NeedsQuotes(text[0]);
      BareHasNoBreaks(text[1..]);
    }
  }

  lemma EscapedHead(text: string)
    requires text != ""
    ensures Escaped(text) != "" && Escaped(text)[0] == text[0]
  {
  }

  /** The character that follows the first one is the same when the text is escaped and closed. */
  lemma EscapedEndsLine(text: string, rest: string)
    requires text != "" && text[0] != '"'
    ensures Escaped(text) + "\"" + rest == [text[0]] + (Escaped(text[1..]) + "\"" + rest)
    ensures EndsLine(Escaped(text) + "\"" + rest) == EndsLine(text)
  {
    var more := Escaped(text[1..]);
    assert Escaped(text) == [text[0]] + more;
    hide Escaped;
    Joined([text[0]], more, "\"");
    Joined([text[0]], more + "\"", rest);
    if |text| > 1 {
      EscapedHead(text[1..]);
      assert (more + "\"" + rest)[0] == text[1];
    } else {
      assert text[1..] == "";
      EscapedNothing();
      assert (more + "\"" + rest)[0] == '"';
    }
  }

  lemma EscapedNothing()
    ensures Escaped("") == ""
  {
  }

  lemma PlainCharBreaks(c: char, rest: string)
    requires !IsLineBreak(c)
    ensures LineBreaks([c] + rest) == LineBreaks(rest)
  {
    assert ([c] + rest)[1..] == rest;
  }

  lemma {:induction false} EscapedBreaks(text: string)
    ensures LineBreaks(Escaped(text) + "\"") == LineBreaks(text)
  {
    if text == "" {
      assert "" + "\"" == "\"" && "\""[1..] == "";
    } else {
      EscapedBreaks(text[1..]);
      var rest := Escaped(text[1..]) + "\"";
      if text[0] == '"' {
        Joined("\"\"", Escaped(text[1..]), "\"");
        Joined("\"", "\"", rest);
        PlainCharBreaks('"', rest);
        PlainCharBreaks('"', "\"" + rest);
      } else {
        EscapedEndsLine(text, "");
        var all := Escaped(text) + "\"";
        assert all + "" == all && rest + "" == rest;
        assert all[1..] == rest;
      }
    }
  }

  lemma CellBreaks(cell: Cell)
    requires Writable(cell)
    ensures LineBreaks(CellText(cell)) == LineBreaks(cell.text)
    ensures CellText(cell) != "" ==> CellText(cell)[|CellText(cell)| - 1] != '\r'
  {
    if cell.Quoted? {
      EscapedBreaks(cell.text);
      var text := CellText(cell);
      assert text == "\"" + (Escaped(cell.text) + "\"");
      assert text[1..] == Escaped(cell.text) + "\"";
    } else if cell.text != "" {
      assert !NeedsQuotes(cell.text[|cell.text| - 1]);
    }
  }

  lemma Joined<T>(a: seq<T>, b: seq<T>, c: seq<T>)
    ensures (a + b) + c == a + (b + c)
  {
  }

  /******* Reading what was written *******/

  lemma {:induction false} ScanQuoted(s: Scan, text: string, rest: string)
    requires s.inQuotes && !StartsWith(rest, '"')
    ensures ScanFrom(s, Escaped(text) + "\"" + rest) ==
            ScanFrom(s.(field := s.field + text, line := s.line + LineBreaks(text),
                        inQuotes := false, afterClosingQuote := true), rest)
    decreases |text|
  {
    hide ScanFrom;
    var all := Escaped(text) + "\"" + rest;
    var next: Scan;
    if text == "" {
      assert all == "\"" + rest && all[1..] == rest;
      assert s.field + text == s.field;
      next := s.(inQuotes := false, afterClosingQuote := true);
      TurnThen(s, all, next, 1);
    } else {
      var more := Escaped(text[1..]) + "\"" + rest;
      if text[0] == '"' {
        assert all == "\"\"" + more && all[2..] == more;
        next := s.(field := s.field + "\"");
        TurnThen(s, all, next, 2);
        assert s.field + "\"" + text[1..] == s.field + text;
      } else {
        EscapedEndsLine(text, rest);
        assert all[1..] == more;
        next := s.(field := s.field + [text[0]], line := s.line + if EndsLine(text) then 1 else 0);
        TurnThen(s, all, next, 1);
        assert s.field + [text[0]] + text[1..] == s.field + text;
      }
      ScanQuoted(next, text[1..], rest);
    }
  }

  lemma {:induction false} ScanBare(s: Scan, text: string, rest: string)
    requires !s.inQuotes && !s.afterClosingQuote && Writable(Bare(text))
    ensures ScanFrom(s, text + rest) == ScanFrom(s.(field := s.field + text), rest)
    decreases |text|
  {
    if text == "" {
      assert text + rest == rest;
      assert s.field + text == s.field;
    } else {
      assert !NeedsQuotes(text[0]);
      assert forall k :: 0 <= k < |text[1..]| ==> text[1..][k] == text[k + 1];
      assert (text + rest)[1..] == text[1..] + rest;
      ScanBare(s.(field := s.field + [text[0]]), text[1..], rest);
      assert s.field + [text[0]] + text[1..] == s.field + text;
    }
  }

  predicate AtFieldStart(s: Scan) {
    s.field == "" && !s.inQuotes && !s.afterClosingQuote
  }

  lemma ScanCell(s: Scan, cell: Cell, rest: string)
    requires AtFieldStart(s) && Writable(cell) && !StartsWith(rest, '"')
    ensures ScanFrom(s, CellText(cell) + rest) ==
            ScanFrom(s.(field := cell.text, line := s.line + LineBreaks(CellText(cell)),
                        afterClosingQuote := cell.Quoted?), rest)
  {
    hide ScanFrom, Escaped, LineBreaks;
    CellBreaks(cell);
    assert s.field + cell.text == cell.text;
    if cell.Quoted? {
      OpenQuote(s, Escaped(cell.text) + "\"" + rest);
      Joined("\"" + Escaped(cell.text), "\"", rest);
      Joined("\"", Escaped(cell.text), "\"" + rest);
      Joined(Escaped(cell.text), "\"", rest);
      ScanQuoted(s.(inQuotes := true), cell.text, rest);
    } else {
      BareHasNoBreaks(cell.text);
      ScanBare(s, cell.text, rest);
    }
  }

  lemma OpenQuote(s: Scan, rest: string)
    requires AtFieldStart(s)
    ensures ScanFrom(s, "\"" + rest) == ScanFrom(s.(inQuotes := true), rest)
  {
    assert ("\"" + rest)[1..] == rest;
  }

  /** The reader once it has taken the cells of a line, but not its end. */
  function AfterCells(s: Scan, cells: seq<Cell>): Scan
    requires cells != []
  {
    var n := |cells| - 1;
    s.(fields := s.fields + Texts(cells[..n]), field := cells[n].text,
       line := s.line + LineBreaks(CellsText(cells)), afterClosingQuote := cells[n].Quoted?)
  }

  predicate EndsCells(rest: string) {
    rest == "" || IsLineBreak(rest[0])
  }

  lemma {:induction false} CellsBreaks(cells: seq<Cell>)
    requires WritableLine(cells)
    ensures |cells| > 1 ==>
      LineBreaks(CellsText(cells)) == LineBreaks(CellText(cells[0])) + LineBreaks(CellsText(cells[1..]))
    ensures CellsText(cells) != "" ==> CellsText(cells)[|CellsText(cells)| - 1] != '\r'
  {
    CellBreaks(cells[0]);
    if |cells| > 1 {
      CellsBreaks(cells[1..]);
      var rest := CellsText(cells[1..]);
      LineBreaksJoin(CellText(cells[0]) + ",", rest);
      LineBreaksJoin(CellText(cells[0]), ",");
      assert LineBreaks(",") == 0 by {
        assert ","[1..] == "";
      }
      if rest == "" {
        assert CellsText(cells) == CellText(cells[0]) + ",";
      }
    }
  }

  /** The reader once it has taken the first cell of several and the comma after it. */
  function AfterFirst(s: Scan, cell: Cell): Scan {
    s.(fields := s.fields + [cell.text], field := "",
       line := s.line + LineBreaks(CellText(cell)), afterClosingQuote := false)
  }

  lemma AfterFirstThenRest(s: Scan, cells: seq<Cell>)
    requires AtFieldStart(s) && WritableLine(cells) && |cells| > 1
    ensures AfterCells(AfterFirst(s, cells[0]), cells[1..]) == AfterCells(s, cells)
  {
    CellsBreaks(cells);
    TextsCut(cells);
    var first, rest := [cells[0].text], Texts(cells[1..][..|cells| - 2]);
    Joined(s.fields, first, rest);
    assert cells[1..][|cells| - 2] == cells[|cells| - 1];
    hide LineBreaks, CellText, CellsText, WritableLine, AtFieldStart, Texts;
    assert AfterCells(AfterFirst(s, cells[0]), cells[1..]).fields == (s.fields + first) + rest;
  }

  lemma TextsCut(cells: seq<Cell>)
    requires |cells| > 1
    ensures Texts(cells[..|cells| - 1]) == [cells[0].text] + Texts(cells[1..][..|cells| - 2])
  {
  }

  lemma ScanFirst(s: Scan, cell: Cell, more: string)
    requires AtFieldStart(s) && Writable(cell)
    ensures ScanFrom(s, CellText(cell) + ("," + more)) == ScanFrom(AfterFirst(s, cell), more)
  {
    hide ScanFrom;
    ScanCell(s, cell, "," + more);
    var taken := s.(field := cell.text, line := s.line + LineBreaks(CellText(cell)), afterClosingQuote := cell.Quoted?);
    assert ("," + more)[1..] == more;
    TurnThen(taken, "," + more, FinishField(taken), 1);
  }

  lemma {:induction false} ScanCells(s: Scan, cells: seq<Cell>, rest: string)
    requires AtFieldStart(s) && WritableLine(cells) && EndsCells(rest)
    ensures ScanFrom(s, CellsText(cells) + rest) == ScanFrom(AfterCells(s, cells), rest)
    decreases |cells|
  {
    if |cells| == 1 {
      ScanCell(s, cells[0], rest);
      assert s.fields + Texts(cells[..0]) == s.fields;
    } else {
      var more := CellsText(cells[1..]);
      Joined(CellText(cells[0]) + ",", more, rest);
      Joined(CellText(cells[0]), ",", more + rest);
      ScanFirst(s, cells[0], more + rest);
      ScanCells(AfterFirst(s, cells[0]), cells[1..], rest);
      AfterFirstThenRest(s, cells);
    }
  }

  /** The reader at the start of a row, with these rows read. */
  function RowStart(rows: seq<Row>, line: nat): Scan {
    Scan(rows, [], "", line, line, false, false)
  }

  lemma LineBreaksOfLine(l: Line)
    requires WritableLine(l.cells)
    ensures LineBreaks(LineText(l)) == LineBreaks(CellsText(l.cells)) + 1
  {
    CellsBreaks(l.cells);
    var end := EndText(l.end);
    LineBreaksJoin(CellsText(l.cells), end);
    assert LineBreaks(end) == 1 by {
      assert "\n"[1..] == "" && "\r"[1..] == "" && "\r\n"[1..] == "\n";
      assert LineBreaks("\n") == 1;
    }
  }

  lemma ScanLine(rows: seq<Row>, line: nat, l: Line, rest: string)
    requires WritableLine(l.cells) && (l.end.Cr? ==> !StartsWith(rest, '\n'))
    ensures ScanFrom(RowStart(rows, line), LineText(l) + rest) ==
            ScanFrom(RowStart(rows + [Row(line, Texts(l.cells))], line + LineBreaks(LineText(l))), rest)
  {
    var cells, end := l.cells, EndText(l.end);
    hide ScanFrom;
    Joined(CellsText(cells), end, rest);
    ScanCells(RowStart(rows, line), cells, end + rest);
    ScanEnd(AfterCells(RowStart(rows, line), cells), l.end, rest);
    RowFinished(rows, line, l);
  }

  lemma RowFinished(rows: seq<Row>, line: nat, l: Line)
    requires WritableLine(l.cells)
    ensures var s := AfterCells(RowStart(rows, line), l.cells);
      FinishRow(s).(line := s.line + 1) ==
        RowStart(rows + [Row(line, Texts(l.cells))], line + LineBreaks(LineText(l)))
  {
    LineBreaksOfLine(l);
    AllTexts(l.cells);
  }

  lemma AllTexts(cells: seq<Cell>)
    requires cells != []
    ensures var n := |cells| - 1;
      [] + Texts(cells[..n]) + [cells[n].text] == Texts(cells)
  {
  }

  /** A line end finishes the row, whichever it is. */
  lemma ScanEnd(s: Scan, end: LineEnd, rest: string)
    requires !s.inQuotes && (end.Cr? ==> !StartsWith(rest, '\n'))
    ensures ScanFrom(s, EndText(end) + rest) == ScanFrom(FinishRow(s).(line := s.line + 1), rest)
  {
    hide ScanFrom;
    TurnOnEnd(s, end, rest);
    var all := EndText(end) + rest;
    assert all[|EndText(end)|..] == rest;
    TurnThen(s, all, FinishRow(s).(line := s.line + 1), |EndText(end)|);
  }

  lemma TurnOnEnd(s: Scan, end: LineEnd, rest: string)
    requires !s.inQuotes && (end.Cr? ==> !StartsWith(rest, '\n'))
    ensures Turn(s, EndText(end) + rest) == Ok((FinishRow(s).(line := s.line + 1), |EndText(end)|))
  {
    var all := EndText(end) + rest;
    if end.Cr? && rest != "" {
      assert all[1] == rest[0];
    }
  }

  lemma TurnThen(s: Scan, all: string, next: Scan, taken: nat)
    requires all != "" && Turn(s, all) == Ok((next, taken))
    ensures ScanFrom(s, all) == ScanFrom(next, all[taken..])
  {
  }

  /******* The round trip *******/

  /** For each row: one plus the line breaks before it, and its fields. */
  function RowsFrom(line: nat, lines: seq<Line>): (rows: seq<Row>)
    requires WritableLines(lines)
    ensures |rows| == |lines|
    decreases |lines|
  {
    if lines == [] then []
    else [Row(line, Texts(lines[0].cells))] + RowsFrom(line + LineBreaks(LineText(lines[0])), lines[1..])
  }

  lemma FirstLineBreaks(lines: seq<Line>, tail: string)
    requires WritableLines(lines) && lines != [] && EndsApart(lines, tail)
    ensures LineBreaks(LinesText(lines)) == LineBreaks(LineText(lines[0])) + LineBreaks(LinesText(lines[1..]))
  {
    var rest := LinesText(lines[1..]);
    CellsBreaks(lines[0].cells);
    if rest != "" {
      assert (rest + tail)[0] == rest[0];
    }
    LineBreaksJoin(LineText(lines[0]), rest);
  }

  /** Reading the first line leaves the reader at the start of the second. */
  lemma ScanFirstLine(rows: seq<Row>, line: nat, lines: seq<Line>, tail: string)
    requires WritableLines(lines) && lines != [] && EndsApart(lines, tail)
    ensures ScanFrom(RowStart(rows, line), LinesText(lines) + tail) ==
            ScanFrom(RowStart(rows + [Row(line, Texts(lines[0].cells))], line + LineBreaks(LineText(lines[0]))),
                     LinesText(lines[1..]) + tail)
  {
    hide ScanFrom;
    LinesTextFirst(lines, tail);
    ScanLine(rows, line, lines[0], LinesText(lines[1..]) + tail);
  }

  lemma {:induction false} ScanLines(rows: seq<Row>, line: nat, lines: seq<Line>, tail: string)
    requires WritableLines(lines) && EndsApart(lines, tail)
    ensures ScanFrom(RowStart(rows, line), LinesText(lines) + tail) ==
            ScanFrom(RowStart(rows + RowsFrom(line, lines), line + LineBreaks(LinesText(lines))), tail)
    decreases |lines|
  {
    hide ScanFrom;
    if lines == [] {
      assert LinesText(lines) + tail == tail;
      assert rows + RowsFrom(line, lines) == rows;
    } else {
      var first := Row(line, Texts(lines[0].cells));
      ScanFirstLine(rows, line, lines, tail);
      ScanLines(rows + [first], line + LineBreaks(LineText(lines[0])), lines[1..], tail);
      FirstLineBreaks(lines, tail);
      RowsFromFirst(rows, line, lines);
    }
  }

  lemma LinesTextFirst(lines: seq<Line>, tail: string)
    requires WritableLines(lines) && lines != []
    ensures LinesText(lines) + tail == LineText(lines[0]) + (LinesText(lines[1..]) + tail)
  {
    Joined(LineText(lines[0]), LinesText(lines[1..]), tail);
  }

  lemma RowsFromFirst(rows: seq<Row>, line: nat, lines: seq<Line>)
    requires WritableLines(lines) && lines != []
    ensures var first, next := Row(line, Texts(lines[0].cells)), line + LineBreaks(LineText(lines[0]));
      rows + RowsFrom(line, lines) == (rows + [first]) + RowsFrom(next, lines[1..])
  {
    hide LineBreaks, CellsText, EndText, Texts;
    var first, next := Row(line, Texts(lines[0].cells)), line + LineBreaks(LineText(lines[0]));
    var more := RowsFrom(next, lines[1..]);
    assert RowsFrom(line, lines) == [first] + more;
    Joined(rows, [first], more);
  }

  lemma {:induction false} RowsFromAt(line: nat, lines: seq<Line>, tail: string, k: nat)
    requires WritableLines(lines) && EndsApart(lines, tail) && k < |lines|
    ensures RowsFrom(line, lines)[k] == Row(line + LineBreaks(LinesText(lines[..k])), Texts(lines[k].cells))
    decreases |lines|
  {
    hide *;
    if k > 0 {
      PrefixBreaks(lines, tail, k);
      LaterRow(line, lines, tail, k);
      RowsFromAt(line + LineBreaks(LineText(lines[0])), lines[1..], tail, k - 1);
    } else {
      FirstRow(line, lines);
    }
  }

  lemma FirstRow(line: nat, lines: seq<Line>)
    requires WritableLines(lines) && lines != []
    ensures RowsFrom(line, lines)[0] == Row(line, Texts(lines[0].cells))
    ensures lines[..0] == [] && LineBreaks(LinesText([])) == 0
  {
  }

  lemma LaterRow(line: nat, lines: seq<Line>, tail: string, k: nat)
    requires WritableLines(lines) && EndsApart(lines, tail) && 0 < k < |lines|
    ensures WritableLine(lines[0].cells) && WritableLines(lines[1..]) && EndsApart(lines[1..], tail)
    ensures RowsFrom(line, lines)[k] == RowsFrom(line + LineBreaks(LineText(lines[0])), lines[1..])[k - 1]
    ensures lines[1..][k - 1] == lines[k]
  {
    hide LineBreaks, LineText, LinesText, Texts, WritableLine;
  }

  lemma PrefixBreaks(lines: seq<Line>, tail: string, k: nat)
    requires WritableLines(lines) && EndsApart(lines, tail) && 0 < k < |lines|
    ensures LineBreaks(LinesText(lines[..k])) ==
            LineBreaks(LineText(lines[0])) + LineBreaks(LinesText(lines[1..][..k - 1]))
  {
    assert lines[..k][1..] == lines[1..][..k - 1];
    PrefixEndsApart(lines, tail, k);
    FirstLineBreaks(lines[..k], LinesText(lines[k..]) + tail);
  }

  lemma {:induction false} LinesTextCut(lines: seq<Line>, k: nat)
    requires WritableLines(lines) && k <= |lines|
    ensures LinesText(lines) == LinesText(lines[..k]) + LinesText(lines[k..])
    decreases |lines|
  {
    if k > 0 {
      LinesTextCut(lines[1..], k - 1);
      assert lines[..k][1..] == lines[1..][..k - 1] && lines[1..][k - 1..] == lines[k..];
      Joined(LineText(lines[0]), LinesText(lines[1..][..k - 1]), LinesText(lines[k..]));
    } else {
      assert lines[..0] == [] && lines[0..] == lines;
    }
  }

  lemma {:induction false} PrefixEndsApart(lines: seq<Line>, tail: string, k: nat)
    requires WritableLines(lines) && EndsApart(lines, tail) && k <= |lines|
    ensures EndsApart(lines[..k], LinesText(lines[k..]) + tail)
    decreases |lines|
  {
    if k > 0 {
      PrefixEndsApart(lines[1..], tail, k - 1);
      assert lines[..k][1..] == lines[1..][..k - 1] && lines[1..][k - 1..] == lines[k..];
      LinesTextCut(lines[1..], k - 1);
      Joined(LinesText(lines[1..][..k - 1]), LinesText(lines[k..]), tail);
    }
  }

  /** A file: lines, and cells after the last line end, if any. */
  function FileText(lines: seq<Line>, last: seq<Cell>): string
    requires WritableLines(lines) && (last != [] ==> WritableLine(last))
  {
    LinesText(lines) + if last == [] then "" else CellsText(last)
  }

  ghost predicate ReadsBack(rows: seq<Row>, lines: seq<Line>, last: seq<Cell>)
    requires WritableLines(lines)
  {
    && |rows| == |lines| + (if last == [] then 0 else 1)
    && (forall k :: 0 <= k < |lines| ==> rows[k].fields == Texts(lines[k].cells))
    && (forall k :: 0 <= k < |lines| ==> rows[k].line == 1 + LineBreaks(LinesText(lines[..k])))
    && (last != [] ==> rows[|lines|] == Row(1 + LineBreaks(LinesText(lines)), Texts(last)))
  }

  function TableRows(lines: seq<Line>, last: seq<Cell>): seq<Row>
    requires WritableLines(lines)
  {
    RowsFrom(1, lines) + if last == [] then [] else [Row(1 + LineBreaks(LinesText(lines)), Texts(last))]
  }

  lemma TableRowsReadBack(lines: seq<Line>, last: seq<Cell>, tail: string)
    requires WritableLines(lines) && EndsApart(lines, tail)
    ensures ReadsBack(TableRows(lines, last), lines, last)
  {
    forall k | 0 <= k < |lines|
      ensures RowsFrom(1, lines)[k] == Row(1 + LineBreaks(LinesText(lines[..k])), Texts(lines[k].cells))
    {
      RowsFromAt(1, lines, tail, k);
    }
    hide LineBreaks, LinesText, RowsFrom, Texts;
  }

  lemma MarkIsSkipped(text: string)
    ensures Parse([BYTE_ORDER_MARK] + text) ==
            match ScanFrom(START, text)
            case Err(e) => Err(e)
            case Ok(s) => Finish(s)
    ensures !StartsWith(text, BYTE_ORDER_MARK) ==> Parse(text) == Parse([BYTE_ORDER_MARK] + text)
  {
    assert ([BYTE_ORDER_MARK] + text)[1..] == text;
    hide ScanFrom, Finish;
  }

  lemma FinishCells(rows: seq<Row>, line: nat, last: seq<Cell>)
    requires WritableLine(last) && last != [Bare("")]
    ensures Finish(AfterCells(RowStart(rows, line), last)) == Ok(rows + [Row(line, Texts(last))])
  {
    var n := |last| - 1;
    AllTexts(last);
    if n == 0 {
      assert last == [last[0]];
    } else {
      assert |[] + Texts(last[..n])| == n;
    }
  }

  lemma ReadCellsToEnd(rows: seq<Row>, line: nat, last: seq<Cell>)
    requires WritableLine(last) && last != [Bare("")]
    ensures var s := ScanFrom(RowStart(rows, line), CellsText(last));
      s.Ok? && Finish(s.value) == Ok(rows + [Row(line, Texts(last))])
  {
    assert CellsText(last) + "" == CellsText(last);
    ScanCells(RowStart(rows, line), last, "");
    OneTurn(AfterCells(RowStart(rows, line), last), "");
    FinishCells(rows, line, last);
    hide *;
  }

  lemma ReadLines(lines: seq<Line>, tail: string)
    requires WritableLines(lines) && EndsApart(lines, tail)
    ensures ScanFrom(START, LinesText(lines) + tail) ==
            ScanFrom(RowStart(RowsFrom(1, lines), 1 + LineBreaks(LinesText(lines))), tail)
  {
    ScanLines([], 1, lines, tail);
    hide ScanFrom, RowsFrom, LineBreaks, LinesText;
    assert [] + RowsFrom(1, lines) == RowsFrom(1, lines);
  }

  lemma ReadToEnd(lines: seq<Line>, last: seq<Cell>)
    requires WritableLines(lines) && (last != [] ==> WritableLine(last)) && last != [Bare("")]
    requires EndsApart(lines, if last == [] then "" else CellsText(last))
    ensures var s := ScanFrom(START, FileText(lines, last));
      s.Ok? && Finish(s.value) == Ok(TableRows(lines, last))
  {
    if last == [] {
      ReadWholeLines(lines);
    } else {
      ReadLinesAndCells(lines, last);
    }
    hide *;
  }

  lemma ReadWholeLines(lines: seq<Line>)
    requires WritableLines(lines) && EndsApart(lines, "")
    ensures ScanFrom(START, FileText(lines, [])).Ok?
    ensures Finish(ScanFrom(START, FileText(lines, [])).value) == Ok(TableRows(lines, []))
  {
    var rows, line := RowsFrom(1, lines), 1 + LineBreaks(LinesText(lines));
    ReadLines(lines, "");
    EndOfText(rows, line);
    assert rows + [] == rows && TableRows(lines, []) == rows;
    assert FileText(lines, []) == LinesText(lines) + "";
    hide *;
  }

  lemma ReadLinesAndCells(lines: seq<Line>, last: seq<Cell>)
    requires WritableLines(lines) && WritableLine(last) && last != [Bare("")] && EndsApart(lines, CellsText(last))
    ensures ScanFrom(START, FileText(lines, last)).Ok?
    ensures Finish(ScanFrom(START, FileText(lines, last)).value) == Ok(TableRows(lines, last))
  {
    var rows, line := RowsFrom(1, lines), 1 + LineBreaks(LinesText(lines));
    ReadLines(lines, CellsText(last));
    ReadCellsToEnd(rows, line, last);
    assert TableRows(lines, last) == rows + [Row(line, Texts(last))];
    assert FileText(lines, last) == LinesText(lines) + CellsText(last);
    hide *;
  }

  lemma EndOfText(rows: seq<Row>, line: nat)
    ensures ScanFrom(RowStart(rows, line), "") == Ok(RowStart(rows, line))
    ensures Finish(RowStart(rows, line)) == Ok(rows)
  {
  }

  /** Reading a written table returns it: every field, embedded quotes, commas and line breaks
      included, and for each row one plus the physical line breaks before it. A lone empty bare
      field after the last line end is no row, and a byte order mark is skipped. */
  lemma WrittenTableReadsBack(lines: seq<Line>, last: seq<Cell>)
    requires WritableLines(lines) && (last != [] ==> WritableLine(last)) && last != [Bare("")]
    requires EndsApart(lines, if last == [] then "" else CellsText(last))
    ensures Parse([BYTE_ORDER_MARK] + FileText(lines, last)).Ok?
    ensures ReadsBack(Parse([BYTE_ORDER_MARK] + FileText(lines, last)).value, lines, last)
    ensures !StartsWith(FileText(lines, last), BYTE_ORDER_MARK) ==>
      Parse(FileText(lines, last)) == Parse([BYTE_ORDER_MARK] + FileText(lines, last))
  {
    ReadToEnd(lines, last);
    MarkIsSkipped(FileText(lines, last));
    TableRowsReadBack(lines, last, if last == [] then "" else CellsText(last));
    hide *;
  }

  /** A row of nothing but quoted fields. */
  function QuotedCells(fields: seq<string>): (cells: seq<Cell>)
    ensures Texts(cells) == fields && |cells| == |fields|
    ensures forall k :: 0 <= k < |cells| ==> cells[k].Quoted?
  {
    seq(|fields|, k requires 0 <= k < |fields| => Quoted(fields[k]))
  }

  function QuotedLines(table: seq<seq<string>>, end: LineEnd): (lines: seq<Line>)
    ensures |lines| == |table| && forall k :: 0 <= k < |lines| ==> lines[k] == Line(QuotedCells(table[k]), end)
  {
    seq(|table|, k requires 0 <= k < |table| => Line(QuotedCells(table[k]), end))
  }

  lemma {:induction false} QuotedEndsApart(lines: seq<Line>)
    requires WritableLines(lines) && forall k :: 0 <= k < |lines| ==> lines[k].cells[0].Quoted?
    ensures EndsApart(lines, "")
    ensures !StartsWith(LinesText(lines), '\n') && !StartsWith(LinesText(lines), BYTE_ORDER_MARK)
  {
    if lines != [] {
      QuotedEndsApart(lines[1..]);
      assert LinesText(lines[1..]) + "" == LinesText(lines[1..]);
      assert CellText(lines[0].cells[0])[0] == '"';
      assert LinesText(lines)[0] == '"';
    }
  }

  /** Every table of non-empty rows, fully quoted, with any line end, reads back as it was. */
  lemma QuotedTableReadsBack(table: seq<seq<string>>, end: LineEnd)
    requires forall k :: 0 <= k < |table| ==> table[k] != []
    ensures WritableLines(QuotedLines(table, end))
    ensures var rows := Parse(LinesText(QuotedLines(table, end)));
      && rows.Ok? && |rows.value| == |table|
      && forall k :: 0 <= k < |table| ==>
            rows.value[k] == Row(1 + LineBreaks(LinesText(QuotedLines(table, end)[..k])), table[k])
  {
    var lines := QuotedLines(table, end);
    QuotedEndsApart(lines);
    WrittenTableReadsBack(lines, []);
    assert FileText(lines, []) == LinesText(lines);
  }

  /******* Nothing but written tables is read *******/

  /** Finished cells of a line that goes on. */
  function CellsPrefix(cells: seq<Cell>): string {
    if cells == [] then "" else CellsPrefix(cells[..|cells| - 1]) + CellText(cells[|cells| - 1]) + ","
  }

  /** What the reader has taken of the field it is in. */
  function Partial(s: Scan): string {
    if s.inQuotes then "\"" + Escaped(s.field)
    else if s.afterClosingQuote then "\"" + Escaped(s.field) + "\""
    else s.field
  }

  /** The field that the reader is in, as it was written. */
  function CurrentCell(s: Scan): Cell {
    if s.afterClosingQuote then Quoted(s.field) else Bare(s.field)
  }

  predicate WritableCells(cells: seq<Cell>) {
    forall k :: 0 <= k < |cells| ==> Writable(cells[k])
  }

  /** `text` is `lines`, then `cells`, then the field that the reader is in, then `rest`. */
  ghost predicate Explains(s: Scan, lines: seq<Line>, cells: seq<Cell>, rest: string, text: string) {
    && WritableLines(lines) && WritableCells(cells)
    && s.fields == Texts(cells)
    && !(s.inQuotes && s.afterClosingQuote)
    && (!s.inQuotes ==> Writable(CurrentCell(s)))
    && text == LinesText(lines) + (CellsPrefix(cells) + (Partial(s) + rest))
    && EndsApart(lines, CellsPrefix(cells) + (Partial(s) + rest))
  }

  lemma {:induction false} EscapedAppend(text: string, c: char)
    ensures Escaped(text + [c]) == Escaped(text) + if c == '"' then "\"\"" else [c]
  {
    if text == "" {
      assert text + [c] == [c] && [c][1..] == "";
      assert Escaped([c]) == (if c == '"' then "\"\"" else [c]) + "";
    } else {
      assert (text + [c])[1..] == text[1..] + [c];
      EscapedAppend(text[1..], c);
    }
  }

  lemma CellsPrefixAppend(cells: seq<Cell>, cell: Cell)
    ensures CellsPrefix(cells + [cell]) == CellsPrefix(cells) + (CellText(cell) + ",")
  {
    assert (cells + [cell])[..|cells|] == cells;
    Joined(CellsPrefix(cells), CellText(cell), ",");
  }

  lemma {:induction false} CellsTextAppend(cells: seq<Cell>, cell: Cell)
    ensures CellsText(cells + [cell]) == CellsPrefix(cells) + CellText(cell)
    decreases |cells|
  {
    if cells == [] {
      assert cells + [cell] == [cell];
      assert "" + CellText(cell) == CellText(cell);
    } else {
      var all := cells + [cell];
      assert all[1..] == cells[1..] + [cell];
      CellsTextAppend(cells[1..], cell);
      PrefixFirst(cells);
      Joined(CellText(cells[0]) + ",", CellsPrefix(cells[1..]), CellText(cell));
    }
  }

  lemma {:induction false} PrefixFirst(cells: seq<Cell>)
    requires cells != []
    ensures CellsPrefix(cells) == (CellText(cells[0]) + ",") + CellsPrefix(cells[1..])
    decreases |cells|
  {
    var n := |cells| - 1;
    if n == 0 {
      assert cells[..0] == [] && cells[1..] == [];
      assert "" + CellText(cells[0]) == CellText(cells[0]);
    } else {
      PrefixFirst(cells[..n]);
      PrefixLast(cells);
      PrefixLast(cells[1..]);
      assert cells[..n][1..] == cells[1..][..n - 1];
      var middle := CellsPrefix(cells[..n][1..]);
      hide *;
      Joined(CellText(cells[0]) + ",", middle, CellText(cells[n]));
      Joined(CellText(cells[0]) + ",", middle + CellText(cells[n]), ",");
    }
  }

  lemma PrefixLast(cells: seq<Cell>)
    requires cells != []
    ensures var n := |cells| - 1; CellsPrefix(cells) == CellsPrefix(cells[..n]) + CellText(cells[n]) + ","
  {
  }

  lemma {:induction false} LinesTextAppend(lines: seq<Line>, l: Line)
    requires WritableLines(lines) && WritableLine(l.cells)
    ensures LinesText(lines + [l]) == LinesText(lines) + LineText(l)
    decreases |lines|
  {
    if lines == [] {
      assert lines + [l] == [l] && [l][1..] == [];
      assert LinesText([l]) == LineText(l) + "" && "" + LineText(l) == LineText(l);
    } else {
      assert (lines + [l])[1..] == lines[1..] + [l];
      LinesTextAppend(lines[1..], l);
      Joined(LineText(lines[0]), LinesText(lines[1..]), LineText(l));
    }
  }

  lemma {:induction false} EndsApartAppend(lines: seq<Line>, l: Line, tail: string)
    requires WritableLines(lines) && WritableLine(l.cells)
    requires EndsApart(lines, LineText(l) + tail) && (l.end.Cr? ==> !StartsWith(tail, '\n'))
    ensures EndsApart(lines + [l], tail)
    decreases |lines|
  {
    if lines == [] {
      assert lines + [l] == [l] && [l][1..] == [];
      assert LinesText([]) + tail == tail;
    } else {
      assert (lines + [l])[1..] == lines[1..] + [l];
      EndsApartAppend(lines[1..], l, tail);
      LinesTextAppend(lines[1..], l);
      Joined(LinesText(lines[1..]), LineText(l), tail);
    }
  }

  /** The reader stays in the field: what it took of it and what is left say the same. */
  lemma FieldGoesOn(s: Scan, next: Scan, lines: seq<Line>, cells: seq<Cell>, rest: string, left: string, text: string)
    requires Explains(s, lines, cells, rest, text)
    requires next.fields == s.fields && Partial(next) + left == Partial(s) + rest
    requires !(next.inQuotes && next.afterClosingQuote) && (!next.inQuotes ==> Writable(CurrentCell(next)))
    ensures Explains(next, lines, cells, left, text)
  {
  }

  lemma PrefixTakesCell(cells: seq<Cell>, cell: Cell, left: string)
    ensures CellsPrefix(cells) + (CellText(cell) + ("," + left)) == CellsPrefix(cells + [cell]) + ("" + left)
  {
    CellsPrefixAppend(cells, cell);
    Joined(CellText(cell), ",", left);
    Joined(CellsPrefix(cells), CellText(cell) + ",", left);
    assert "" + left == left;
  }

  /** A comma finishes the cell. */
  lemma CellEnds(s: Scan, lines: seq<Line>, cells: seq<Cell>, left: string, text: string)
    requires Explains(s, lines, cells, "," + left, text) && !s.inQuotes
    ensures Explains(FinishField(s), lines, cells + [CurrentCell(s)], left, text)
  {
    hide LinesText, EndsApart, Escaped, LineBreaks, CellsPrefix;
    var cell := CurrentCell(s);
    assert Partial(s) == CellText(cell);
    PrefixTakesCell(cells, cell, left);
    assert Texts(cells + [cell]) == Texts(cells) + [cell.text];
  }

  /** A line end finishes the line. */
  lemma LineEnds(s: Scan, lines: seq<Line>, cells: seq<Cell>, end: LineEnd, left: string, text: string)
    requires Explains(s, lines, cells, EndText(end) + left, text) && !s.inQuotes
    requires end.Cr? ==> !StartsWith(left, '\n')
    ensures Explains(FinishRow(s).(line := s.line + 1), lines + [Line(cells + [CurrentCell(s)], end)], [], left, text)
  {
    var cell := CurrentCell(s);
    var l := Line(cells + [cell], end);
    var open := EndText(end) + left;
    assert Partial(s) == CellText(cell) && WritableLine(l.cells);
    CellsTextAppend(cells, cell);
    Joined(CellsPrefix(cells), CellText(cell), open);
    Joined(CellsText(l.cells), EndText(end), left);
    assert CellsPrefix(cells) + (Partial(s) + open) == LineText(l) + left;
    LinesTextAppend(lines, l);
    Joined(LinesText(lines), LineText(l), left);
    EndsApartAppend(lines, l, left);
    assert "" + left == left && Texts([]) == [];
  }

  lemma QuotedTurn(s: Scan, lines: seq<Line>, cells: seq<Cell>, rest: string, text: string)
    requires Explains(s, lines, cells, rest, text) && rest != "" && s.inQuotes
    ensures Turn(s, rest).Ok?
    ensures var (next, taken) := Turn(s, rest).value; Explains(next, lines, cells, rest[taken..], text)
  {
    var (next, taken) := Turn(s, rest).value;
    var left := rest[taken..];
    if rest[0] != '"' {
      EscapedAppend(s.field, rest[0]);
      assert rest == [rest[0]] + left;
      Joined("\"", Escaped(s.field), [rest[0]]);
      Joined("\"" + Escaped(s.field), [rest[0]], left);
    } else if taken == 2 {
      EscapedAppend(s.field, '"');
      assert rest == "\"\"" + left;
      Joined("\"", Escaped(s.field), "\"\"");
      Joined("\"" + Escaped(s.field), "\"\"", left);
    } else {
      assert rest == "\"" + left;
      Joined("\"" + Escaped(s.field), "\"", left);
    }
    FieldGoesOn(s, next, lines, cells, rest, left, text);
  }

  lemma PlainTurn(s: Scan, lines: seq<Line>, cells: seq<Cell>, rest: string, text: string)
    requires Explains(s, lines, cells, rest, text) && rest != "" && !s.inQuotes
    requires rest[0] != ',' && !IsLineBreak(rest[0]) && Turn(s, rest).Ok?
    ensures var (next, taken) := Turn(s, rest).value; Explains(next, lines, cells, rest[taken..], text)
  {
    var (next, taken) := Turn(s, rest).value;
    var left := rest[taken..];
    assert rest == [rest[0]] + left;
    hide Explains;
    if rest[0] == '"' {
      assert Partial(s) == "" && Escaped("") == "" && "\"" + "" == "\"";
      assert Partial(next) + left == rest && "" + rest == rest;
    } else {
      Joined(s.field, [rest[0]], left);
    }
    FieldGoesOn(s, next, lines, cells, rest, left, text);
  }

  function EndAt(rest: string): LineEnd {
    if StartsCrLf(rest) then CrLf else if StartsWith(rest, '\n') then Lf else Cr
  }

  /** One turn that does not fail explains itself. */
  lemma TurnExplained(s: Scan, lines: seq<Line>, cells: seq<Cell>, rest: string, text: string)
    returns (lines': seq<Line>, cells': seq<Cell>)
    requires Explains(s, lines, cells, rest, text) && rest != "" && Turn(s, rest).Ok?
    ensures var (next, taken) := Turn(s, rest).value; Explains(next, lines', cells', rest[taken..], text)
    ensures var next := Turn(s, rest).value.0;
      if lines' == lines then next.rowLine == s.rowLine
      else cells' == [] && next.rowLine == next.line && Partial(next) == ""
  {
    hide Explains;
    lines', cells' := lines, cells;
    if s.inQuotes {
      QuotedTurn(s, lines, cells, rest, text);
    } else if rest[0] == ',' {
      assert rest == "," + rest[1..];
      CellEnds(s, lines, cells, rest[1..], text);
      cells' := cells + [CurrentCell(s)];
    } else if IsLineBreak(rest[0]) {
      var end := EndAt(rest);
      var left := rest[|EndText(end)|..];
      assert rest == EndText(end) + left;
      assert end.Cr? ==> !StartsWith(left, '\n');
      LineEnds(s, lines, cells, end, left, text);
      lines', cells' := lines + [Line(cells + [CurrentCell(s)], end)], [];
    } else {
      PlainTurn(s, lines, cells, rest, text);
    }
  }

  lemma {:induction false} ScanExplained(s: Scan, lines: seq<Line>, cells: seq<Cell>, rest: string, text: string)
    returns (lines': seq<Line>, cells': seq<Cell>)
    requires Explains(s, lines, cells, rest, text) && ScanFrom(s, rest).Ok?
    ensures Explains(ScanFrom(s, rest).value, lines', cells', "", text)
    decreases |rest|
  {
    if rest == "" {
      lines', cells' := lines, cells;
    } else {
      lines', cells' := TurnExplained(s, lines, cells, rest, text);
      var (next, taken) := Turn(s, rest).value;
      lines', cells' := ScanExplained(next, lines', cells', rest[taken..], text);
    }
  }

  /** `text` is a written table: lines, and cells after the last line end, if any. */
  ghost predicate IsTable(text: string, lines: seq<Line>, last: seq<Cell>) {
    && WritableLines(lines) && (last != [] ==> WritableLine(last)) && last != [Bare("")]
    && EndsApart(lines, if last == [] then "" else CellsText(last))
    && text == FileText(lines, last)
  }

  lemma ReadTextIsTable(text: string) returns (lines: seq<Line>, last: seq<Cell>)
    requires ScanFrom(START, text).Ok? && Finish(ScanFrom(START, text).value).Ok?
    ensures IsTable(text, lines, last)
  {
    assert "" + ("" + text) == text && Texts([]) == [] && LinesText([]) + ("" + ("" + text)) == text;
    var cells;
    lines, cells := ScanExplained(START, [], [], text, text);
    var s := ScanFrom(START, text).value;
    assert Partial(s) + "" == Partial(s);
    if cells == [] && s.field == "" && !s.afterClosingQuote {
      last := [];
      assert CellsPrefix(cells) + Partial(s) == "";
    } else {
      last := cells + [CurrentCell(s)];
      assert Partial(s) == CellText(CurrentCell(s));
      CellsTextAppend(cells, CurrentCell(s));
      if cells == [] {
        assert last[0] != Bare("");
      } else {
        assert |last| > 1;
      }
    }
  }

  /** The reader accepts exactly the written tables, with or without a byte order mark. */
  lemma AcceptsExactlyTables(input: string)
    ensures Parse(input).Ok? <==> exists lines, last :: IsTable(WithoutMark(input), lines, last)
  {
    if Parse(input).Ok? {
      var lines, last := ReadTextIsTable(WithoutMark(input));
      assert IsTable(WithoutMark(input), lines, last);
    }
    if lines, last :| IsTable(WithoutMark(input), lines, last) {
      ReadToEnd(lines, last);
    }
  }

  /******* What is refused, and on which line *******/

  /** The line counts of the reader: breaks before what is left, and before the row that it is in. */
  ghost predicate Located(s: Scan, lines: seq<Line>, rest: string, text: string)
    requires WritableLines(lines) && |LinesText(lines)| <= |text|
  {
    && s.line + LineBreaks(rest) == 1 + LineBreaks(text)
    && s.rowLine + LineBreaks(text[|LinesText(lines)|..]) == 1 + LineBreaks(text)
  }

  lemma TurnCountsBreaks(s: Scan, rest: string)
    requires rest != "" && Turn(s, rest).Ok?
    ensures var (next, taken) := Turn(s, rest).value;
      next.line + LineBreaks(rest[taken..]) == s.line + LineBreaks(rest)
  {
    var taken := Turn(s, rest).value.1;
    if taken == 2 {
      assert rest[1..][1..] == rest[2..];
      assert EndsLine(rest[1..]) <==> StartsCrLf(rest);
    }
  }

  lemma OpenText(s: Scan, lines: seq<Line>, cells: seq<Cell>, rest: string, text: string)
    requires Explains(s, lines, cells, rest, text)
    ensures |LinesText(lines)| <= |text|
    ensures text[|LinesText(lines)|..] == CellsPrefix(cells) + (Partial(s) + rest)
    ensures cells == [] && Partial(s) == "" ==> text[|LinesText(lines)|..] == rest
  {
    assert "" + rest == rest && "" + ("" + rest) == rest;
  }

  lemma TurnLocated(
    s: Scan, lines: seq<Line>, rest: string, text: string, lines': seq<Line>, cells': seq<Cell>)
    requires rest != "" && Turn(s, rest).Ok? && WritableLines(lines) && |LinesText(lines)| <= |text|
    requires Located(s, lines, rest, text)
    requires var (next, taken) := Turn(s, rest).value;
      Explains(next, lines', cells', rest[taken..], text) &&
      if lines' == lines then next.rowLine == s.rowLine
      else cells' == [] && next.rowLine == next.line && Partial(next) == ""
    ensures WritableLines(lines') && |LinesText(lines')| <= |text|
    ensures Located(Turn(s, rest).value.0, lines', rest[Turn(s, rest).value.1..], text)
  {
    var (next, taken) := Turn(s, rest).value;
    TurnCountsBreaks(s, rest);
    OpenText(next, lines', cells', rest[taken..], text);
    assert WritableLines(lines');
    hide Turn, LinesText, LineBreaks, Explains, CellsPrefix;
  }

  /** What is wrong with `text`, and where: lines and cells that are well written, then a closed quote
      with more text behind it, a quote within a bare field, or a quote that is not closed. The first
      two are reported on their line, the last on the line on which its row begins. */
  ghost predicate Fault(text: string, e: CsvError, lines: seq<Line>, cells: seq<Cell>, field: string, rest: string) {
    && WritableLines(lines) && WritableCells(cells) && |LinesText(lines)| <= |text|
    && var open := text[|LinesText(lines)|..];
       && text == LinesText(lines) + open && EndsApart(lines, open)
       && match e
          case TextAfterQuote(n) =>
            && rest != "" && rest[0] != ',' && rest[0] != '"' && !IsLineBreak(rest[0])
            && open == CellsPrefix(cells) + (CellText(Quoted(field)) + rest)
            && n + LineBreaks(rest) == 1 + LineBreaks(text)
          case QuoteInsideField(n) =>
            && rest != "" && rest[0] == '"' && field != "" && Writable(Bare(field))
            && open == CellsPrefix(cells) + (field + rest)
            && n + LineBreaks(rest) == 1 + LineBreaks(text)
          case QuoteNotClosed(n) =>
            && open == CellsPrefix(cells) + ("\"" + Escaped(field)) && rest == ""
            && n + LineBreaks(open) == 1 + LineBreaks(text)
  }

  lemma ErrorIsFault(s: Scan, lines: seq<Line>, cells: seq<Cell>, rest: string, text: string)
    requires Explains(s, lines, cells, rest, text) && rest != "" && Turn(s, rest).Err?
    requires s.afterClosingQuote ==> !StartsWith(rest, '"')
    requires |LinesText(lines)| <= |text| && Located(s, lines, rest, text)
    ensures Fault(text, Turn(s, rest).error, lines, cells, s.field, rest)
  {
    OpenText(s, lines, cells, rest, text);
    hide LinesText, LineBreaks, CellsPrefix, EndsApart, Escaped;
    assert s.afterClosingQuote ==> Partial(s) == CellText(Quoted(s.field));
  }

  lemma OpenQuoteIsFault(s: Scan, lines: seq<Line>, cells: seq<Cell>, text: string)
    requires Explains(s, lines, cells, "", text) && s.inQuotes
    requires |LinesText(lines)| <= |text| && Located(s, lines, "", text)
    ensures Fault(text, QuoteNotClosed(s.rowLine), lines, cells, s.field, "")
  {
    OpenText(s, lines, cells, "", text);
    assert Partial(s) + "" == Partial(s);
    hide LinesText, LineBreaks, CellsPrefix, EndsApart, Escaped;
  }

  lemma ClosedByOneQuote(s: Scan, rest: string)
    requires rest != "" && Turn(s, rest).Ok? && !(s.inQuotes && s.afterClosingQuote)
    ensures var (next, taken) := Turn(s, rest).value; next.afterClosingQuote ==> !StartsWith(rest[taken..], '"')
  {
  }

  /** Where a scan stops: at the fault that it reports, or at the end. */
  lemma {:induction false} ScanFails(
    s: Scan, lines: seq<Line>, cells: seq<Cell>, rest: string, text: string, e: CsvError)
    returns (lines': seq<Line>, cells': seq<Cell>, field: string, left: string)
    requires Explains(s, lines, cells, rest, text) && (s.afterClosingQuote ==> !StartsWith(rest, '"'))
    requires |LinesText(lines)| <= |text| && Located(s, lines, rest, text)
    requires match ScanFrom(s, rest) case Err(x) => x == e case Ok(t) => Finish(t) == Err(e)
    ensures Fault(text, e, lines', cells', field, left)
    decreases |rest|
  {
    OneTurn(s, rest);
    assert WritableLines(lines) && !(s.inQuotes && s.afterClosingQuote);
    hide Explains, Located, Fault, ScanFrom, FinishRow, LinesText, WritableLines;
    if rest == "" {
      OpenQuoteIsFault(s, lines, cells, text);
      lines', cells', field, left := lines, cells, s.field, "";
    } else if Turn(s, rest).Err? {
      ErrorIsFault(s, lines, cells, rest, text);
      lines', cells', field, left := lines, cells, s.field, rest;
    } else {
      lines', cells' := TurnExplained(s, lines, cells, rest, text);
      TurnLocated(s, lines, rest, text, lines', cells');
      ClosedByOneQuote(s, rest);
      var (next, taken) := Turn(s, rest).value;
      lines', cells', field, left := ScanFails(next, lines', cells', rest[taken..], text, e);
    }
  }

  /** A text is refused with the fault that it has, on the line on which it has it. */
  lemma RefusesWithLine(input: string)
    ensures Parse(input).Err? ==>
      exists lines, cells, field, rest :: Fault(WithoutMark(input), Parse(input).error, lines, cells, field, rest)
  {
    if Parse(input).Err? {
      var text := WithoutMark(input);
      assert "" + ("" + text) == text && Texts([]) == [] && LinesText([]) + ("" + ("" + text)) == text;
      assert text[0..] == text;
      var lines, cells, field, rest := ScanFails(START, [], [], text, text, Parse(input).error);
      assert Fault(text, Parse(input).error, lines, cells, field, rest);
    }
  }
}
