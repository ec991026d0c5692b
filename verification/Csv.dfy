/**
 * Tables as CSV text (section 2 of RFC 4180): the exporter's printer with its
 * formula guard, the import's reader, and the contacts reader beside it.
 * Characters stand for UTF-16 code units; none that matters here is a surrogate.
 */
module Csv {
  import opened Base

  const MARK: char := '\U{feff}'
  const UNTERMINATED := 400

  // ---- Printing ----

  predicate Formula(c: char) { c in "=+-@\t\r" }

  function Guarded(text: string): string {
    if text != "" && Formula(text[0]) then "'" + text else text
  }

  predicate NeedsQuotes(text: string) { '"' in text || ',' in text || '\r' in text || '\n' in text }

  function Doubled(text: string): string {
    if text == "" then "" else (if text[0] == '"' then "\"\"" else [text[0]]) + Doubled(text[1..])
  }

  function Quoted(text: string): string {
    if NeedsQuotes(text) then "\"" + Doubled(text) + "\"" else text
  }

  function Line(cells: seq<string>): string {
    if cells == [] then ""
    else if |cells| == 1 then Quoted(cells[0])
    else Quoted(cells[0]) + "," + Line(cells[1..])
  }

  function Lines(lines: seq<seq<string>>): string {
    if lines == [] then "" else Line(lines[0]) + "\r\n" + Lines(lines[1..])
  }

  /** A cell as the table holds it: a number or boolean, printed bare, or a value already turned to text. */
  datatype Cell = Bare(text: string) | Text(text: string)

  predicate PrintsBare(c: Cell) {
    c.Bare? ==> c.text != "" && !NeedsQuotes(c.text) && c.text[0] != '\'' && c.text[0] != MARK
  }

  function Printed(c: Cell): string { if c.Bare? then c.text else Guarded(c.text) }

  /** No text of a table opens a cell as a formula when it is exported, and only texts that would are changed. */
  lemma TextsAreGuarded(c: Cell)
    requires c.Text?
    ensures Printed(c) == "" || Printed(c)[0] !in {'=', '+', '-', '@', '\t', '\r'}
    ensures c.text != "" && c.text[0] in {'=', '+', '-', '@', '\t', '\r'} ==> Printed(c) == "'" + c.text
    ensures c.text == "" || c.text[0] !in {'=', '+', '-', '@', '\t', '\r'} ==> Printed(c) == c.text
  {
  }

  function PrintedRow(cells: seq<Cell>): seq<string> { seq(|cells|, i requires 0 <= i < |cells| => Printed(cells[i])) }

  function PrintedRows(lines: seq<seq<Cell>>): seq<seq<string>> {
    seq(|lines|, i requires 0 <= i < |lines| => PrintedRow(lines[i]))
  }

  function TableCsv(headers: seq<string>, rows: seq<seq<Cell>>): string {
    Lines(PrintedRows([seq(|headers|, i requires 0 <= i < |headers| => Text(headers[i]))] + rows))
  }

  // ---- Reading ----

  datatype State = State(rows: seq<seq<string>>, row: seq<string>, cell: string, quoted: bool, started: bool)

  const START := State([], [], "", false, false)

  /** What the reader makes of the text still to come. */
  function Scan(text: string, s: State): Result<seq<seq<string>>>
    decreases |text|
  {
    if text == "" then
      if s.quoted then Err(UNTERMINATED)
      else Ok(if s.started || s.row != [] then s.rows + [s.row + [s.cell]] else s.rows)
    else
      var c, rest := text[0], text[1..];
      if s.quoted then
        if c != '"' then Scan(rest, s.(cell := s.cell + [c]))
        else if rest != "" && rest[0] == '"' then Scan(rest[1..], s.(cell := s.cell + "\""))
        else Scan(rest, s.(quoted := false))
      else if c == '"' && !s.started then Scan(rest, s.(quoted := true, started := true))
      else if c == ',' then Scan(rest, s.(row := s.row + [s.cell], cell := "", started := false))
      else if c == '\n' || c == '\r' then
        Scan(if c == '\r' && rest != "" && rest[0] == '\n' then rest[1..] else rest,
             State(s.rows + [s.row + [s.cell]], [], "", false, false))
      else Scan(rest, s.(cell := s.cell + [c], started := true))
  }

  function Unmarked(text: string): string { if text != "" && text[0] == MARK then text[1..] else text }

  function Parsed(text: string): Result<seq<seq<string>>> { Scan(Unmarked(text), START) }

  method ParseCsv(text: string) returns (r: Result<seq<seq<string>>>)
    ensures r == Parsed(text)
  {
    var input := if text != "" && text[0] == MARK then text[1..] else text;
    var rows: seq<seq<string>> := [];
    var row: seq<string> := [];
    var cell := "";
    var quoted, started := false, false;
    var i := 0;
    while i < |input|
      invariant i <= |input|
      invariant Scan(input[i..], State(rows, row, cell, quoted, started)) == Parsed(text)
    {
      var c := input[i];
      assert input[i..][1..] == input[i + 1..];
      assert i + 1 < |input| ==> input[i + 1..][1..] == input[i + 2..];
      if quoted {
        if c != '"' {
          cell := cell + [c];
        } else if i + 1 < |input| && input[i + 1] == '"' {
          cell := cell + "\"";
          i := i + 1;
        } else {
          quoted := false;
        }
      } else if c == '"' && !started {
        quoted, started := true, true;
      } else if c == ',' {
        row, cell, started := row + [cell], "", false;
      } else if c == '\n' || c == '\r' {
        if c == '\r' && i + 1 < |input| && input[i + 1] == '\n' { i := i + 1; }
        rows := rows + [row + [cell]];
        row, cell, started := [], "", false;
      } else {
        cell, started := cell + [c], true;
      }
      i := i + 1;
    }
    if quoted { return Err(UNTERMINATED); }
    if started || row != [] { rows := rows + [row + [cell]]; }
    return Ok(rows);
  }

  // ---- What a text is read as ----

  /**
   * A cell as a text may have it: written plainly, or in quotes, where quotes
   * are doubled, with what stands between its closing quote and its end.
   */
  datatype Written = AsIs(text: string) | InQuotes(text: string, more: string)

  predicate Apart(text: string) { ',' !in text && '\r' !in text && '\n' !in text }

  predicate Proper(w: Written) {
    match w
    case AsIs(text) => Apart(text) && (text != "" ==> text[0] != '"')
    case InQuotes(_, more) => Apart(more) && (more != "" ==> more[0] != '"')
  }

  predicate AllProper(ws: seq<Written>) { forall w :: w in ws ==> Proper(w) }

  function CellText(w: Written): string {
    match w
    case AsIs(text) => text
    case InQuotes(text, more) => "\"" + (Doubled(text) + ("\"" + more))
  }

  function Meant(w: Written): string { match w case AsIs(text) => text case InQuotes(text, more) => text + more }

  function LineText(ws: seq<Written>): string {
    if ws == [] then ""
    else if |ws| == 1 then CellText(ws[0])
    else CellText(ws[0]) + "," + LineText(ws[1..])
  }

  /** A line without cells reads back as one empty cell. */
  function MeantRow(ws: seq<Written>): seq<string> {
    if ws == [] then [""] else seq(|ws|, i requires 0 <= i < |ws| => Meant(ws[i]))
  }

  /** A line ends with CR LF, LF or CR, where a CR before an LF is one end with it. */
  predicate LineEnd(end: string, rest: string) {
    end == "\r\n" || end == "\n" || (end == "\r" && (rest == "" || rest[0] != '\n'))
  }

  predicate Ends(rest: string) { rest == "" || rest[0] in ",\r\n" }

  lemma QuotedPair(more: string, s: State)
    requires s.quoted
    ensures Scan("\"\"" + more, s) == Scan(more, s.(cell := s.cell + "\""))
  {
    assert ("\"\"" + more)[1..] == "\"" + more && ("\"" + more)[1..] == more;
  }

  /** Inside quotes the reader takes one printed character, doubled or not, as the character it stands for. */
  lemma DoubledFirst(text: string, tail: string, s: State)
    requires text != "" && s.quoted
    ensures Scan(Doubled(text) + tail, s) == Scan(Doubled(text[1..]) + tail, s.(cell := s.cell + [text[0]]))
  {
    var more := Doubled(text[1..]) + tail;
    if text[0] == '"' {
      assert Doubled(text) + tail == "\"\"" + more;
      QuotedPair(more, s);
    } else {
      assert Doubled(text) + tail == [text[0]] + more;
      assert ([text[0]] + more)[1..] == more;
    }
  }

  lemma {:induction false} ScanDoubled(text: string, rest: string, s: State)
    requires s.quoted && (rest == "" || rest[0] != '"')
    ensures Scan(Doubled(text) + ("\"" + rest), s) == Scan(rest, s.(cell := s.cell + text, quoted := false))
    decreases |text|
  {
    var tail := "\"" + rest;
    if text == "" {
      assert Doubled(text) + tail == tail && tail[1..] == rest;
      assert s.cell + text == s.cell;
    } else {
      var next := s.(cell := s.cell + [text[0]]);
      DoubledFirst(text, tail, s);
      ScanDoubled(text[1..], rest, next);
      assert next.cell + text[1..] == s.cell + text;
    }
  }

  /** Outside quotes a quote counts only where it opens a cell. */
  lemma {:induction false} ScanPlain(text: string, rest: string, s: State)
    requires !s.quoted && Apart(text) && (text != "" && !s.started ==> text[0] != '"')
    ensures Scan(text + rest, s) == Scan(rest, s.(cell := s.cell + text, started := s.started || text != ""))
    decreases |text|
  {
    if text == "" {
      assert text + rest == rest && s.cell + text == s.cell;
    } else {
      var next := s.(cell := s.cell + [text[0]], started := true);
      assert (text + rest)[1..] == text[1..] + rest;
      assert next.cell + text[1..] == s.cell + text;
      assert text[0] in text && forall c :: c in text[1..] ==> c in text;
      ScanPlain(text[1..], rest, next);
    }
  }

  lemma ScanInQuotes(text: string, more: string, rest: string, s: State)
    requires !s.quoted && !s.started && s.cell == "" && Proper(InQuotes(text, more)) && Ends(rest)
    ensures Scan(CellText(InQuotes(text, more)) + rest, s) == Scan(rest, s.(cell := text + more, started := true))
  {
    var tail := Doubled(text) + ("\"" + (more + rest));
    assert CellText(InQuotes(text, more)) + rest == "\"" + tail && ("\"" + tail)[1..] == tail;
    ScanDoubled(text, more + rest, s.(quoted := true, started := true));
    assert s.cell + text == text;
    ScanPlain(more, rest, s.(cell := text, started := true));
  }

  lemma ScanCell(w: Written, rest: string, rows: seq<seq<string>>, row: seq<string>)
    requires Proper(w) && Ends(rest)
    ensures Scan(CellText(w) + rest, State(rows, row, "", false, false)) ==
      Scan(rest, State(rows, row, Meant(w), false, CellText(w) != ""))
  {
    var s := State(rows, row, "", false, false);
    match w
    case AsIs(text) =>
      ScanPlain(text, rest, s);
      assert "" + text == text;
    case InQuotes(text, more) => ScanInQuotes(text, more, rest, s);
  }

  lemma RowGoesOn(row: seq<string>, ws: seq<Written>)
    requires |ws| > 1
    ensures row + [Meant(ws[0])] + MeantRow(ws[1..]) == row + MeantRow(ws)
  {
  }

  lemma ScanEnd(end: string, rest: string, s: State)
    requires !s.quoted && LineEnd(end, rest)
    ensures Scan(end + rest, s) == Scan(rest, State(s.rows + [s.row + [s.cell]], [], "", false, false))
  {
    assert (end + rest)[1..] == end[1..] + rest;
    if end == "\r\n" {
      assert end[1..] == "\n" && ("\n" + rest)[1..] == rest;
    } else {
      assert end[1..] + rest == rest;
    }
  }

  lemma ScanFirst(ws: seq<Written>, tail: string, rows: seq<seq<string>>, row: seq<string>)
    requires |ws| > 1 && AllProper(ws)
    ensures Scan(LineText(ws) + tail, State(rows, row, "", false, false))
         == Scan(LineText(ws[1..]) + tail, State(rows, row + [Meant(ws[0])], "", false, false))
  {
    var more := LineText(ws[1..]) + tail;
    assert LineText(ws) + tail == CellText(ws[0]) + ("," + more);
    ScanCell(ws[0], "," + more, rows, row);
    assert ("," + more)[1..] == more;
  }

  lemma {:induction false} ScanLine(
      ws: seq<Written>, end: string, rest: string, rows: seq<seq<string>>, row: seq<string>)
    requires AllProper(ws) && LineEnd(end, rest)
    ensures Scan(LineText(ws) + (end + rest), State(rows, row, "", false, false))
         == Scan(rest, State(rows + [row + MeantRow(ws)], [], "", false, false))
    decreases |ws|
  {
    var tail := end + rest;
    if ws == [] {
      assert LineText(ws) + tail == tail;
      ScanEnd(end, rest, State(rows, row, "", false, false));
    } else if |ws| == 1 {
      ScanCell(ws[0], tail, rows, row);
      assert MeantRow(ws) == [Meant(ws[0])];
      ScanEnd(end, rest, State(rows, row, Meant(ws[0]), false, CellText(ws[0]) != ""));
    } else {
      ScanFirst(ws, tail, rows, row);
      ScanLine(ws[1..], end, rest, rows, row + [Meant(ws[0])]);
      RowGoesOn(row, ws);
    }
  }

  /** The text's last line need not end; if there is nothing in it, it is none. */
  lemma {:induction false} ScanLast(ws: seq<Written>, rows: seq<seq<string>>, row: seq<string>)
    requires AllProper(ws)
    ensures Scan(LineText(ws), State(rows, row, "", false, false))
         == Ok(if LineText(ws) == "" && row == [] then rows else rows + [row + MeantRow(ws)])
    decreases |ws|
  {
    assert LineText(ws) + "" == LineText(ws);
    if ws == [] {
    } else if |ws| == 1 {
      ScanCell(ws[0], "", rows, row);
      assert CellText(ws[0]) + "" == CellText(ws[0]) && MeantRow(ws) == [Meant(ws[0])];
    } else {
      ScanFirst(ws, "", rows, row);
      assert LineText(ws[1..]) + "" == LineText(ws[1..]);
      ScanLast(ws[1..], rows, row + [Meant(ws[0])]);
      RowGoesOn(row, ws);
    }
  }

  /** Lines with their ends, and what stands after the last of them. */
  function Document(lines: seq<seq<Written>>, ends: seq<string>, last: seq<Written>): string
    requires |ends| == |lines|
  {
    if lines == [] then LineText(last) else LineText(lines[0]) + (ends[0] + Document(lines[1..], ends[1..], last))
  }

  ghost predicate EndsFit(lines: seq<seq<Written>>, ends: seq<string>, last: seq<Written>)
    requires |ends| == |lines|
  {
    lines != [] ==> LineEnd(ends[0], Document(lines[1..], ends[1..], last)) && EndsFit(lines[1..], ends[1..], last)
  }

  function MeantRows(lines: seq<seq<Written>>): seq<seq<string>> {
    if lines == [] then [] else [MeantRow(lines[0])] + MeantRows(lines[1..])
  }

  lemma {:induction false} ScanDocument(
      lines: seq<seq<Written>>, ends: seq<string>, last: seq<Written>, rows: seq<seq<string>>)
    requires |ends| == |lines| && EndsFit(lines, ends, last)
    requires AllProper(last) && forall ws :: ws in lines ==> AllProper(ws)
    ensures Scan(Document(lines, ends, last), State(rows, [], "", false, false))
         == Ok(rows + MeantRows(lines) + if LineText(last) == "" then [] else [MeantRow(last)])
    decreases |lines|
  {
    if lines == [] {
      ScanLast(last, rows, []);
      assert [] + MeantRow(last) == MeantRow(last) && rows + [] == rows;
    } else {
      var next := rows + [MeantRow(lines[0])];
      ScanLine(lines[0], ends[0], Document(lines[1..], ends[1..], last), rows, []);
      assert [] + MeantRow(lines[0]) == MeantRow(lines[0]);
      ScanDocument(lines[1..], ends[1..], last, next);
      assert next + MeantRows(lines[1..]) == rows + MeantRows(lines);
    }
  }

  /**
   * Every text made of cells, plain or in quotes, commas and line ends of any
   * of the three kinds reads as those cells' texts, with or without a byte
   * order mark and whether or not its last line ends.
   */
  lemma DocumentsParse(lines: seq<seq<Written>>, ends: seq<string>, last: seq<Written>)
    requires |ends| == |lines| && EndsFit(lines, ends, last)
    requires AllProper(last) && forall ws :: ws in lines ==> AllProper(ws)
    ensures var text := Document(lines, ends, last);
      var rows := MeantRows(lines) + if LineText(last) == "" then [] else [MeantRow(last)];
      Parsed([MARK] + text) == Ok(rows) && (text == "" || text[0] != MARK ==> Parsed(text) == Ok(rows))
  {
    var text := Document(lines, ends, last);
    ScanDocument(lines, ends, last, []);
    assert ([MARK] + text)[1..] == text && [] + MeantRows(lines) == MeantRows(lines);
  }

  /** A quote that opens a cell and is never closed is an error. */
  lemma {:induction false} OpenQuoteFails(text: string, s: State)
    requires s.quoted
    ensures Scan(Doubled(text), s) == Err(UNTERMINATED)
    decreases |text|
  {
    assert Doubled(text) + "" == Doubled(text);
    if text == "" {
    } else {
      DoubledFirst(text, "", s);
      assert Doubled(text[1..]) + "" == Doubled(text[1..]);
      OpenQuoteFails(text[1..], s.(cell := s.cell + [text[0]]));
    }
  }

  // ---- Reading what was printed ----

  function FormOf(text: string): Written { if NeedsQuotes(text) then InQuotes(text, "") else AsIs(text) }

  function Forms(cells: seq<string>): seq<Written> {
    seq(|cells|, i requires 0 <= i < |cells| => FormOf(cells[i]))
  }

  lemma FormFits(text: string)
    ensures Proper(FormOf(text)) && CellText(FormOf(text)) == Quoted(text) && Meant(FormOf(text)) == text
  {
    if NeedsQuotes(text) { assert "\"" + (Doubled(text) + ("\"" + "")) == "\"" + Doubled(text) + "\""; }
  }

  /** A line without cells reads back as one empty cell. */
  function RowOf(cells: seq<string>): seq<string> { if cells == [] then [""] else cells }

  lemma {:induction false} LineIsWritten(cells: seq<string>)
    ensures AllProper(Forms(cells)) && LineText(Forms(cells)) == Line(cells)
    ensures MeantRow(Forms(cells)) == RowOf(cells)
  {
    forall i | 0 <= i < |cells| ensures Proper(FormOf(cells[i])) && Meant(FormOf(cells[i])) == cells[i] {
      FormFits(cells[i]);
    }
    if cells == [] {
    } else {
      FormFits(cells[0]);
      LineIsWritten(cells[1..]);
      assert Forms(cells)[1..] == Forms(cells[1..]);
    }
  }

  function RowsOf(lines: seq<seq<string>>): seq<seq<string>> {
    seq(|lines|, i requires 0 <= i < |lines| => RowOf(lines[i]))
  }

  lemma RowsGoOn(rows: seq<seq<string>>, lines: seq<seq<string>>)
    requires lines != []
    ensures rows + [RowOf(lines[0])] + RowsOf(lines[1..]) == rows + RowsOf(lines)
  {
  }

  lemma {:induction false} ScanLines(lines: seq<seq<string>>, rows: seq<seq<string>>)
    ensures Scan(Lines(lines), State(rows, [], "", false, false)) == Ok(rows + RowsOf(lines))
    decreases |lines|
  {
    if lines == [] {
      assert rows + RowsOf(lines) == rows;
    } else {
      var rest := Lines(lines[1..]);
      var next := rows + [RowOf(lines[0])];
      assert Lines(lines) == Line(lines[0]) + ("\r\n" + rest);
      LineIsWritten(lines[0]);
      ScanLine(Forms(lines[0]), "\r\n", rest, rows, []);
      assert [] + RowOf(lines[0]) == RowOf(lines[0]);
      ScanLines(lines[1..], next);
      RowsGoOn(rows, lines);
    }
  }

  /** The text opens with a byte order mark that the reader will drop. */
  predicate Marked(lines: seq<seq<string>>) {
    lines != [] && lines[0] != [] && !NeedsQuotes(lines[0][0]) && lines[0][0] != "" && lines[0][0][0] == MARK
  }

  lemma FirstOf(cells: seq<string>, rest: string)
    ensures var text := Line(cells) + ("\r\n" + rest);
      text != "" && text[0] == (if cells == [] then '\r' else if NeedsQuotes(cells[0]) then '"'
                                else if cells[0] != "" then cells[0][0] else if |cells| > 1 then ',' else '\r')
  {
  }

  lemma MarkedText(lines: seq<seq<string>>)
    ensures Lines(lines) != "" && Lines(lines)[0] == MARK <==> Marked(lines)
  {
    if lines != [] {
      assert Lines(lines) == Line(lines[0]) + ("\r\n" + Lines(lines[1..]));
      FirstOf(lines[0], Lines(lines[1..]));
    }
  }

  function Stripped(lines: seq<seq<string>>): seq<seq<string>>
    requires Marked(lines)
  {
    [[lines[0][0][1..]] + lines[0][1..]] + lines[1..]
  }

  lemma StrippedText(lines: seq<seq<string>>)
    requires Marked(lines)
    ensures Lines(lines)[1..] == Lines(Stripped(lines))
  {
    var cell, cells := lines[0][0], lines[0];
    assert forall c :: c in cell[1..] ==> c in cell;
    var first := [cell[1..]] + cells[1..];
    assert first[1..] == cells[1..];
    assert Line(cells)[1..] == Line(first);
    assert Lines(lines) == Line(cells) + ("\r\n" + Lines(lines[1..]));
    assert Stripped(lines)[1..] == lines[1..];
  }

  /** Exactly when does reading give back the very cells that were printed. */
  lemma ParsedPrintedExactly(lines: seq<seq<string>>)
    ensures Parsed(Lines(lines)) == Ok(lines) <==> !Marked(lines) && forall i :: 0 <= i < |lines| ==> lines[i] != []
  {
    MarkedText(lines);
    if Marked(lines) {
      StrippedText(lines);
      ScanLines(Stripped(lines), []);
      var read := RowsOf(Stripped(lines));
      assert [] + read == read;
      assert read[0] == [lines[0][0][1..]] + lines[0][1..];
      assert read[0][0] == lines[0][0][1..] != lines[0][0];
    } else {
      ScanLines(lines, []);
      assert [] + RowsOf(lines) == RowsOf(lines);
      if forall i :: 0 <= i < |lines| ==> lines[i] != [] {
        assert RowsOf(lines) == lines;
      } else {
        var i :| 0 <= i < |lines| && lines[i] == [];
        assert RowsOf(lines)[i] == [""];
      }
    }
  }

  // ---- Undoing the guard ----

  function Unguarded(raw: string): string {
    if |raw| > 1 && raw[0] == '\'' && Formula(raw[1]) then raw[1..] else raw
  }

  /** A cell that was already guarded when it was printed. */
  predicate Ambiguous(c: Cell) { c.Text? && |c.text| > 1 && c.text[0] == '\'' && Formula(c.text[1]) }

  lemma UnguardedExactly(c: Cell)
    requires PrintsBare(c)
    ensures Unguarded(Printed(c)) == c.text <==> !Ambiguous(c)
    ensures Printed(c) == "" <==> c.text == ""
    ensures Unguarded(Printed(c)) == "" ==> c.text == ""
  {
    if c.Text? && c.text != "" && Formula(c.text[0]) {
      assert ("'" + c.text)[1..] == c.text;
    }
  }

  datatype Upload = Workbook | Sheet(headers: seq<string>, rows: seq<map<string, string>>)

  /** One row under its headers; a later column of the same name wins, and empty cells are absent. */
  function Keyed(headers: seq<string>, cells: seq<string>, n: nat): map<string, string>
    requires n <= |headers|
  {
    if n == 0 then map[]
    else
      var before, h := Keyed(headers, cells, n - 1), headers[n - 1];
      var raw := if n - 1 < |cells| then cells[n - 1] else "";
      if h != "" && raw != "" then before[h := Unguarded(raw)] else before
  }

  function Sheeted(parsed: seq<seq<string>>): Upload {
    var head := if parsed == [] then [] else parsed[0];
    var body := if parsed == [] then [] else parsed[1..];
    var headers := seq(|head|, i requires 0 <= i < |head| => Trim(head[i]));
    Sheet(headers, seq(|body|, r requires 0 <= r < |body| => Keyed(headers, body[r], |headers|)))
  }

  /** The signature every zip file opens with. */
  predicate IsZip(text: string) {
    |text| >= 4 && text[0] == 'P' && text[1] == 'K' && text[2] == '\U{3}' && text[3] == '\U{4}'
  }

  lemma ZipOpens(text: string)
    ensures IsZip(text) <==> "PK\U{3}\U{4}" <= text
  {
    if |text| >= 4 { assert text[..4] == [text[0]] + [text[1]] + [text[2]] + [text[3]]; }
  }

  /** An uploaded file's text: a zip is a workbook, which this model leaves unread. */
  function ReadUploaded(text: string): Result<Upload> {
    if IsZip(text) then Ok(Workbook)
    else match Parsed(text) case Ok(parsed) => Ok(Sheeted(parsed)) case Err(e) => Err(e)
  }

  predicate IsKey(h: string) {
    h != "" && !NeedsQuotes(h) && !Formula(h[0]) && h[0] != MARK && Trim(h) == h && !IsZip(h)
  }

  /** Headers as a board has them: field keys. */
  predicate Keys(headers: seq<string>) {
    && headers != []
    && (forall i :: 0 <= i < |headers| ==> IsKey(headers[i]))
    && forall i, j :: 0 <= i < j < |headers| ==> headers[i] != headers[j]
  }

  /** What the import should see of a row: every cell that has a header and some text. */
  function Expected(headers: seq<string>, row: seq<Cell>, n: nat): map<string, string>
    requires n <= |headers|
  {
    if n == 0 then map[]
    else
      var before := Expected(headers, row, n - 1);
      if n - 1 < |row| && row[n - 1].text != "" then before[headers[n - 1] := row[n - 1].text] else before
  }

  predicate Clear(row: seq<Cell>, n: nat) { forall i :: 0 <= i < n && i < |row| ==> !Ambiguous(row[i]) }

  predicate NotAmong(headers: seq<string>, h: string, n: nat)
    requires n <= |headers|
  {
    forall i :: 0 <= i < n ==> headers[i] != h
  }

  function At(cells: seq<string>, n: nat): string { if n < |cells| then cells[n] else "" }

  /** The last column of a name with some text in the row. */
  predicate LastOf(headers: seq<string>, cells: seq<string>, h: string, n: nat, i: nat)
    requires n <= |headers|
  {
    && i < n && headers[i] == h && At(cells, i) != ""
    && forall j :: i < j < n ==> headers[j] != h || At(cells, j) == ""
  }

  /** Whatever the headers: a name has the text of its last column that has any in the row. */
  lemma {:induction false} KeyedLast(headers: seq<string>, cells: seq<string>, h: string, n: nat, i: nat)
    requires n <= |headers| && h != "" && LastOf(headers, cells, h, n, i)
    ensures h in Keyed(headers, cells, n) && Keyed(headers, cells, n)[h] == Unguarded(At(cells, i))
  {
    if i == n - 1 {
    } else {
      KeyedLast(headers, cells, h, n - 1, i);
    }
  }

  /** A name without such a column is absent, and so is the empty one. */
  lemma {:induction false} KeyedNone(headers: seq<string>, cells: seq<string>, h: string, n: nat)
    requires n <= |headers| && (h == "" || forall i :: 0 <= i < n ==> headers[i] != h || At(cells, i) == "")
    ensures h !in Keyed(headers, cells, n)
  {
    if n == 0 {
    } else {
      KeyedNone(headers, cells, h, n - 1);
    }
  }

  lemma {:induction false} ExpectedOnly(headers: seq<string>, row: seq<Cell>, h: string, n: nat)
    requires n <= |headers| && NotAmong(headers, h, n)
    ensures h !in Expected(headers, row, n)
  {
    if n == 0 {
    } else {
      ExpectedOnly(headers, row, h, n - 1);
    }
  }

  function TextAt(row: seq<Cell>, n: nat): string { if n < |row| then row[n].text else "" }

  predicate ClearAt(row: seq<Cell>, n: nat) { n < |row| ==> !Ambiguous(row[n]) }

  /** The cell the reader finds in column `n`, against the one that was exported. */
  lemma CellAt(row: seq<Cell>, n: nat)
    requires forall c :: c in row ==> PrintsBare(c)
    ensures At(RowOf(PrintedRow(row)), n) == "" <==> TextAt(row, n) == ""
    ensures Unguarded(At(RowOf(PrintedRow(row)), n)) == TextAt(row, n) <==> ClearAt(row, n)
    ensures TextAt(row, n) == "" ==> ClearAt(row, n)
  {
    if n < |row| {
      assert row[n] in row;
      UnguardedExactly(row[n]);
      assert RowOf(PrintedRow(row)) == PrintedRow(row);
    }
  }

  lemma SameUpdate(k: map<string, string>, e: map<string, string>, h: string, v: string, w: string)
    requires h !in k && h !in e
    ensures k[h := v] == e[h := w] <==> k == e && v == w
  {
    if k[h := v] == e[h := w] {
      assert v == k[h := v][h] == w;
      assert k == k[h := v] - {h};
      assert e == e[h := w] - {h};
    }
  }

  lemma ColumnExactly(headers: seq<string>, cells: seq<string>, row: seq<Cell>, n: nat)
    requires n < |headers| && Keys(headers)
    requires At(cells, n) == "" <==> TextAt(row, n) == ""
    ensures Keyed(headers, cells, n + 1) == Expected(headers, row, n + 1)
       <==> Keyed(headers, cells, n) == Expected(headers, row, n)
            && (TextAt(row, n) == "" || Unguarded(At(cells, n)) == TextAt(row, n))
  {
    assert IsKey(headers[n]);
    KeyedNone(headers, cells, headers[n], n);
    ExpectedOnly(headers, row, headers[n], n);
    if TextAt(row, n) != "" {
      SameUpdate(
        Keyed(headers, cells, n), Expected(headers, row, n), headers[n], Unguarded(At(cells, n)), TextAt(row, n));
    }
  }

  /** The first `n` columns of a printed row read as what it held there. */
  predicate ComesBack(headers: seq<string>, row: seq<Cell>, n: nat)
    requires n <= |headers|
  {
    Keyed(headers, RowOf(PrintedRow(row)), n) == Expected(headers, row, n)
  }

  lemma ColumnClear(headers: seq<string>, row: seq<Cell>, n: nat)
    requires n < |headers| && Keys(headers) && forall c :: c in row ==> PrintsBare(c)
    ensures ComesBack(headers, row, n + 1) <==> ComesBack(headers, row, n) && ClearAt(row, n)
  {
    CellAt(row, n);
    ColumnExactly(headers, RowOf(PrintedRow(row)), row, n);
  }

  lemma ClearNext(row: seq<Cell>, n: nat)
    ensures Clear(row, n + 1) <==> Clear(row, n) && ClearAt(row, n)
  {
  }

  lemma {:induction false} KeyedExactly(headers: seq<string>, row: seq<Cell>, n: nat)
    requires n <= |headers| && Keys(headers) && forall c :: c in row ==> PrintsBare(c)
    ensures ComesBack(headers, row, n) <==> Clear(row, n)
  {
    if n == 0 {
    } else {
      var m := n - 1;
      KeyedExactly(headers, row, m);
      ColumnClear(headers, row, m);
      ClearNext(row, m);
    }
  }

  function Restored(headers: seq<string>, rows: seq<seq<Cell>>): Upload {
    Sheet(headers, seq(|rows|, r requires 0 <= r < |rows| => Expected(headers, rows[r], |headers|)))
  }

  lemma TableText(headers: seq<string>, rows: seq<seq<Cell>>)
    requires Keys(headers)
    ensures TableCsv(headers, rows) == Lines([headers] + PrintedRows(rows))
  {
    var head := seq(|headers|, i requires 0 <= i < |headers| => Text(headers[i]));
    forall i | 0 <= i < |headers| ensures PrintedRow(head)[i] == headers[i] { assert IsKey(headers[i]); }
    assert PrintedRow(head) == headers;
    assert PrintedRows([head] + rows) == [headers] + PrintedRows(rows);
  }

  lemma PrintedTable(headers: seq<string>, rows: seq<seq<Cell>>)
    requires Keys(headers)
    ensures Parsed(TableCsv(headers, rows)) == Ok(RowsOf([headers] + PrintedRows(rows)))
  {
    var lines := [headers] + PrintedRows(rows);
    TableText(headers, rows);
    assert IsKey(headers[0]);
    MarkedText(lines);
    ScanLines(lines, []);
    assert [] + RowsOf(lines) == RowsOf(lines);
  }

  lemma LinesFirst(first: seq<string>, rest: seq<seq<string>>)
    ensures Lines([first] + rest) == Line(first) + ("\r\n" + Lines(rest))
  {
    assert ([first] + rest)[1..] == rest;
  }

  lemma NoZip(headers: seq<string>, rest: string)
    requires Keys(headers)
    ensures !IsZip(Line(headers) + ("\r\n" + rest))
  {
    var h := headers[0];
    assert IsKey(h);
    var text := Line(headers) + ("\r\n" + rest);
    assert h <= text && (|h| < |text| && (text[|h|] == ',' || text[|h|] == '\r'));
  }

  lemma PrintedIsNoZip(headers: seq<string>, rows: seq<seq<Cell>>)
    requires Keys(headers)
    ensures !IsZip(TableCsv(headers, rows))
  {
    TableText(headers, rows);
    LinesFirst(headers, PrintedRows(rows));
    NoZip(headers, Lines(PrintedRows(rows)));
  }

  /** The rows as the import reads them from an exported table. */
  lemma SheetedRows(headers: seq<string>, rows: seq<seq<Cell>>)
    requires Keys(headers)
    ensures var read := Sheeted(RowsOf([headers] + PrintedRows(rows)));
      && read.headers == headers && |read.rows| == |rows|
      && forall r :: 0 <= r < |rows| ==> read.rows[r] == Keyed(headers, RowOf(PrintedRow(rows[r])), |headers|)
  {
    var parsed := RowsOf([headers] + PrintedRows(rows));
    assert parsed[0] == headers;
    assert forall i :: 0 <= i < |headers| ==> IsKey(headers[i]);
    assert Sheeted(parsed).headers == headers;
    assert forall r :: 0 <= r < |rows| ==> parsed[1..][r] == RowOf(PrintedRow(rows[r]));
  }

  /**
   * An exported table comes back with the very texts it held exactly when no
   * cell under a header was guarded before.
   */
  lemma UploadRestoresExactly(headers: seq<string>, rows: seq<seq<Cell>>)
    requires Keys(headers) && forall r, c :: 0 <= r < |rows| && c in rows[r] ==> PrintsBare(c)
    ensures ReadUploaded(TableCsv(headers, rows)) == Ok(Restored(headers, rows))
       <==> forall r :: 0 <= r < |rows| ==> Clear(rows[r], |headers|)
  {
    PrintedTable(headers, rows);
    PrintedIsNoZip(headers, rows);
    SheetedRows(headers, rows);
    var read, restored := Sheeted(RowsOf([headers] + PrintedRows(rows))), Restored(headers, rows);
    forall r | 0 <= r < |rows| ensures read.rows[r] == restored.rows[r] <==> Clear(rows[r], |headers|) {
      KeyedExactly(headers, rows[r], |headers|);
    }
    if forall r :: 0 <= r < |rows| ==> Clear(rows[r], |headers|) { assert read.rows == restored.rows; }
  }

  // ---- The contacts reader ----

  datatype Plain = Plain(rows: seq<seq<string>>, row: seq<string>, field: string, quoted: bool)

  /** The contacts reader opens a quote wherever the field is still empty, and keeps no `started` flag. */
  function ContactScan(text: string, s: Plain): Result<seq<seq<string>>>
    decreases |text|
  {
    if text == "" then
      if s.quoted then Err(UNTERMINATED)
      else Ok(if s.field != "" || s.row != [] then s.rows + [s.row + [s.field]] else s.rows)
    else
      var c, rest := text[0], text[1..];
      if s.quoted then
        if c != '"' then ContactScan(rest, s.(field := s.field + [c]))
        else if rest != "" && rest[0] == '"' then ContactScan(rest[1..], s.(field := s.field + "\""))
        else ContactScan(rest, s.(quoted := false))
      else if c == '"' && s.field == "" then ContactScan(rest, s.(quoted := true))
      else if c == ',' then ContactScan(rest, s.(row := s.row + [s.field], field := ""))
      else if c == '\n' || c == '\r' then
        ContactScan(if c == '\r' && rest != "" && rest[0] == '\n' then rest[1..] else rest,
                    Plain(s.rows + [s.row + [s.field]], [], "", false))
      else ContactScan(rest, s.(field := s.field + [c]))
  }

  predicate BlankRow(row: seq<string>) { forall f :: f in row ==> Trim(f) == "" }

  function NonBlank(rows: seq<seq<string>>): seq<seq<string>> {
    if rows == [] then []
    else NonBlank(rows[..|rows| - 1]) + (if BlankRow(rows[|rows| - 1]) then [] else [rows[|rows| - 1]])
  }

  function Kept(r: Result<seq<seq<string>>>): Result<seq<seq<string>>> {
    match r case Ok(rows) => Ok(NonBlank(rows)) case Err(e) => Err(e)
  }

  function ContactsParsed(text: string): Result<seq<seq<string>>> {
    Kept(ContactScan(Unmarked(text), Plain([], [], "", false)))
  }

  method ParseContactsCsv(text: string) returns (r: Result<seq<seq<string>>>)
    ensures r == ContactsParsed(text)
  {
    var rows: seq<seq<string>> := [];
    var row: seq<string> := [];
    var field := "";
    var quoted := false;
    var i := if text != "" && text[0] == MARK then 1 else 0;
    assert text[i..] == Unmarked(text);
    while i < |text|
      invariant i <= |text|
      invariant ContactScan(text[i..], Plain(rows, row, field, quoted)) ==
        ContactScan(Unmarked(text), Plain([], [], "", false))
    {
      var c := text[i];
      assert text[i..][1..] == text[i + 1..];
      assert i + 1 < |text| ==> text[i + 1..][1..] == text[i + 2..];
      if quoted {
        if c != '"' {
          field := field + [c];
        } else if i + 1 < |text| && text[i + 1] == '"' {
          field := field + "\"";
          i := i + 1;
        } else {
          quoted := false;
        }
      } else if c == '"' && field == "" {
        quoted := true;
      } else if c == ',' {
        row, field := row + [field], "";
      } else if c == '\n' || c == '\r' {
        if c == '\r' && i + 1 < |text| && text[i + 1] == '\n' { i := i + 1; }
        rows := rows + [row + [field]];
        row, field := [], "";
      } else {
        field := field + [c];
      }
      i := i + 1;
    }
    if quoted { return Err(UNTERMINATED); }
    if field != "" || row != [] { rows := rows + [row + [field]]; }
    return Ok(NonBlank(rows));
  }

  /**
   * The two readers' states agree: a closed empty quote is the only time
   * `started` says more, and no quote follows it.
   */
  predicate Agree(text: string, s: State, p: Plain) {
    && s.rows == p.rows && s.row == p.row && s.cell == p.field && s.quoted == p.quoted
    && if s.quoted then s.started
       else s.started == (s.cell != "") || (s.started && (text == "" || text[0] != '"'))
  }

  lemma {:induction false} ScansAgree(text: string, s: State, p: Plain)
    requires Agree(text, s, p)
    ensures Kept(Scan(text, s)) == Kept(ContactScan(text, p))
    decreases |text|
  {
    if text == "" {
      if !s.quoted && s.started && s.cell == "" && s.row == [] {
        assert BlankRow([""]) by { assert Trim("") == ""; }
        assert [] + [""] == [""];
        assert (s.rows + [[""]])[..|s.rows|] == s.rows;
        assert NonBlank(s.rows) + [] == NonBlank(s.rows);
      }
    } else {
      AgreeNext(text, s, p);
    }
  }

  lemma AgreeNext(text: string, s: State, p: Plain)
    requires text != "" && Agree(text, s, p)
    ensures Kept(Scan(text, s)) == Kept(ContactScan(text, p))
    decreases |text|, 0
  {
    var c, rest := text[0], text[1..];
    if s.quoted {
      if c != '"' {
        ScansAgree(rest, s.(cell := s.cell + [c]), p.(field := p.field + [c]));
      } else if rest != "" && rest[0] == '"' {
        ScansAgree(rest[1..], s.(cell := s.cell + "\""), p.(field := p.field + "\""));
      } else {
        ScansAgree(rest, s.(quoted := false), p.(quoted := false));
      }
    } else if c == '"' && !s.started {
      ScansAgree(rest, s.(quoted := true, started := true), p.(quoted := true));
    } else if c == ',' {
      ScansAgree(
        rest, s.(row := s.row + [s.cell], cell := "", started := false), p.(row := p.row + [p.field], field := ""));
    } else if c == '\n' || c == '\r' {
      ScansAgree(if c == '\r' && rest != "" && rest[0] == '\n' then rest[1..] else rest,
                 State(s.rows + [s.row + [s.cell]], [], "", false, false),
                 Plain(p.rows + [p.row + [p.field]], [], "", false));
    } else {
      ScansAgree(rest, s.(cell := s.cell + [c], started := true), p.(field := p.field + [c]));
    }
  }

  /** On every text, the contacts reader answers what the import's reader answers, less the blank rows. */
  lemma ReadersAgree(text: string)
    ensures ContactsParsed(text) == Kept(Parsed(text))
  {
    ScansAgree(Unmarked(text), START, Plain([], [], "", false));
  }
}
