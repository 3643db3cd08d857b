/**
 The gateway's CSV text layer: the hand-written quote-aware scanner (`parseCsv`) and the
 writer it is paired with (`csvEscape` and the two joins in `downloadSensorData`).

 The scanner looks one character ahead. Its specification does not: it is a fold of a
 four-mode automaton over the characters, so it distributes over concatenation, and the
 loop is proved to compute that fold.
 */
module Csv {
  import opened JsText

  type Row = seq<string>
  type Table = seq<Row>

  predicate Blank(field: string) {
    forall c <- field :: IsSpace(c)
  }

  /** A row the scanner drops: one field, nothing but white space in it. */
  predicate LoneBlank(row: Row) {
    |row| == 1 && Blank(row[0])
  }

  function DropLoneBlanks(rows: Table): Table {
    if rows == [] then []
    else (if LoneBlank(rows[0]) then [] else [rows[0]]) + DropLoneBlanks(rows[1..])
  }

  // ─── Specification: a fold without look-ahead ──────────────────────────────────────

  /** `QuoteSeen`: a quote was read inside quotes; the next character decides what it was. */
  datatype Mode = Plain | AfterCr | Quoted | QuoteSeen

  datatype Scan = Scan(rows: Table, row: Row, field: string, mode: Mode)

  const START := Scan([], [], "", Plain)

  function StepOutside(st: Scan, c: char): Scan {
    if c == '"' then st.(mode := Quoted)
    else if c == ',' then Scan(st.rows, st.row + [st.field], "", Plain)
    else if c == '\n' && st.mode == AfterCr then st.(mode := Plain)
    else if c == '\n' then Scan(st.rows + [st.row + [st.field]], [], "", Plain)
    else if c == '\r' then Scan(st.rows + [st.row + [st.field]], [], "", AfterCr)
    else Scan(st.rows, st.row, st.field + [c], Plain)
  }

  function Step(st: Scan, c: char): Scan {
    if st.mode == Quoted then
      if c == '"' then st.(mode := QuoteSeen) else st.(field := st.field + [c])
    else if st.mode == QuoteSeen && c == '"' then
      st.(field := st.field + ['"'], mode := Quoted)
    else
      StepOutside(st, c)
  }

  function Fold(st: Scan, text: string): Scan
    decreases |text|
  {
    if text == "" then st else Fold(Step(st, text[0]), text[1..])
  }

  function Finish(st: Scan): Table {
    if st.field != "" || st.row != [] then st.rows + [st.row + [st.field]] else st.rows
  }

  function WithoutBom(text: string): string {
    if text != "" && text[0] == BOM then text[1..] else text
  }

  function Parse(text: string): Table {
    DropLoneBlanks(Finish(Fold(START, WithoutBom(text))))
  }

  function Quotes(text: string): nat {
    if text == "" then 0 else (if text[0] == '"' then 1 else 0) + Quotes(text[1..])
  }

  /** A text ends outside quotes when its quotes pair up. */
  predicate EndsOutsideQuotes(text: string) {
    Quotes(text) % 2 == 0
  }

  lemma {:induction false} FoldConcat(st: Scan, a: string, b: string)
    ensures Fold(st, a + b) == Fold(Fold(st, a), b)
    decreases |a|
  {
    if a == "" {
      assert a + b == b;
    } else {
      assert (a + b)[0] == a[0] && (a + b)[1..] == a[1..] + b;
      FoldConcat(Step(st, a[0]), a[1..], b);
    }
  }

  lemma FoldOne(st: Scan, c: char)
    ensures Fold(st, [c]) == Step(st, c)
  {
    assert Fold(Step(st, c), [c][1..]) == Step(st, c);
  }

  lemma {:induction false} FoldQuotes(st: Scan, text: string)
    ensures Fold(st, text).mode == Quoted <==> (Quotes(text) + if st.mode == Quoted then 1 else 0) % 2 == 1
    decreases |text|
  {
    if text != "" {
      FoldQuotes(Step(st, text[0]), text[1..]);
    }
  }

  lemma OutsideIsEven(text: string)
    ensures EndsOutsideQuotes(text) <==> Fold(START, WithoutBom(text)).mode != Quoted
  {
    FoldQuotes(START, WithoutBom(text));
  }

  // ─── The scanner's loop ────────────────────────────────────────────────────────────

  /** The loop's four variables agree with the automaton, given what the next character is. */
  ghost predicate Agrees(st: Scan, rows: Table, row: Row, field: string, quoted: bool, rest: string) {
    && st.rows == rows && st.row == row && st.field == field
    && (quoted <==> st.mode == Quoted)
    && (st.mode == QuoteSeen ==> rest == "" || rest[0] != '"')
    && (st.mode == AfterCr ==> rest == "" || rest[0] != '\n')
  }

  method ParseCsv(text: string) returns (table: Table)
    ensures table == Parse(text)
  {
    var rows: Table := [];
    var row: Row := [];
    var field := "";
    var quoted := false;
    var i := 0;
    if |text| > 0 && text[0] == BOM {
      i := 1;
    }
    ghost var whole := WithoutBom(text);
    ghost var st := START;
    assert text[i..] == whole;
    while i < |text|
      invariant 0 <= i <= |text|
      invariant Fold(START, whole) == Fold(st, text[i..])
      invariant Agrees(st, rows, row, field, quoted, text[i..])
    {
      var c := text[i];
      ghost var next := Step(st, c);
      assert text[i..][1..] == text[i + 1..];
      if quoted {
        if c == '"' {
          if i + 1 < |text| && text[i + 1] == '"' {
            field := field + ['"'];
            next := Step(next, text[i + 1]);
            assert text[i + 1..][1..] == text[i + 2..];
            i := i + 1;
          } else {
            quoted := false;
          }
        } else {
          field := field + [c];
        }
      } else if c == '"' {
        quoted := true;
      } else if c == ',' {
        row := row + [field];
        field := "";
      } else if c == '\n' || c == '\r' {
        if c == '\r' && i + 1 < |text| && text[i + 1] == '\n' {
          next := Step(next, text[i + 1]);
          assert text[i + 1..][1..] == text[i + 2..];
          i := i + 1;
        }
        row := row + [field];
        field := "";
        rows := rows + [row];
        row := [];
      } else {
        field := field + [c];
      }
      i := i + 1;
      st := next;
    }
    if |field| > 0 || |row| > 0 {
      row := row + [field];
      rows := rows + [row];
    }
    table := DropLoneBlanks(rows);
  }

  // ─── The writer ────────────────────────────────────────────────────────────────────

  predicate NeedsQuotes(field: string) {
    '"' in field || ',' in field || '\n' in field
  }

  function Doubled(field: string): string {
    if field == "" then ""
    else (if field[0] == '"' then "\"\"" else [field[0]]) + Doubled(field[1..])
  }

  function CsvEscape(field: string): string {
    if NeedsQuotes(field) then "\"" + Doubled(field) + "\"" else field
  }

  function RenderRow(row: Row): string {
    if row == [] then ""
    else if |row| == 1 then CsvEscape(row[0])
    else CsvEscape(row[0]) + "," + RenderRow(row[1..])
  }

  datatype LineEnd = Lf | CrLf | Cr

  function Eol(end: LineEnd): string {
    match end case Lf => "\n" case CrLf => "\r\n" case Cr => "\r"
  }

  /** The exporter ends its lines with `Lf`, the gateway with `CrLf`. */
  function Render(table: Table, end: LineEnd): string {
    if table == [] then ""
    else if |table| == 1 then RenderRow(table[0])
    else RenderRow(table[0]) + (Eol(end) + Render(table[1..], end))
  }

  /** The one thing the writer forgets: a CR alone does not make it quote a field. */
  predicate BareCr(field: string) {
    '\r' in field && !NeedsQuotes(field)
  }

  predicate StartsWithBom(table: Table) {
    table != [] && table[0] != [] && table[0][0] != "" && table[0][0][0] == BOM && !NeedsQuotes(table[0][0])
  }

  /** Decidable by looking at the table: what a caller must avoid to get the table back. */
  predicate Faithful(table: Table) {
    && (forall row <- table :: row != [] && !LoneBlank(row))
    && (forall row <- table, field <- row :: !BareCr(field))
    && !StartsWithBom(table)
  }

  // ─── One field at a time ───────────────────────────────────────────────────────────

  predicate AtCellStart(st: Scan) {
    st.field == "" && (st.mode == Plain || st.mode == AfterCr)
  }

  predicate Outside(st: Scan) {
    st.mode != Quoted
  }

  /** Reading back the doubled body of a quoted field appends exactly the field. */
  lemma {:induction false} FoldDoubled(st: Scan, field: string)
    requires st.mode == Quoted
    ensures Fold(st, Doubled(field)) == st.(field := st.field + field)
    decreases |field|
  {
    if field == "" {
      assert st.field + field == st.field;
    } else {
      var head := if field[0] == '"' then "\"\"" else [field[0]];
      var mid := st.(field := st.field + [field[0]]);
      FoldConcat(st, head, Doubled(field[1..]));
      if field[0] == '"' {
        assert head[1..] == ['"'];
        FoldOne(Step(st, '"'), '"');
      } else {
        FoldOne(st, field[0]);
      }
      FoldDoubled(mid, field[1..]);
      assert st.field + [field[0]] + field[1..] == st.field + field;
    }
  }

  /** A field with no separator in it is appended as it stands. */
  lemma {:induction false} FoldPlain(st: Scan, field: string)
    requires st.mode == Plain || st.mode == AfterCr
    requires !NeedsQuotes(field) && '\r' !in field
    ensures Fold(st, field) == if field == "" then st else st.(field := st.field + field, mode := Plain)
    decreases |field|
  {
    if field != "" {
      var next := Step(st, field[0]);
      assert forall c <- field[1..] :: c in field;
      FoldPlain(next, field[1..]);
      assert st.field + [field[0]] + field[1..] == st.field + field;
    }
  }

  lemma FoldField(st: Scan, field: string)
    requires AtCellStart(st) && !BareCr(field)
    ensures var done := Fold(st, CsvEscape(field));
            && Outside(done) && (done.mode == AfterCr ==> st.mode == AfterCr && !NeedsQuotes(field))
            && done.rows == st.rows && done.row == st.row && done.field == field
  {
    if NeedsQuotes(field) {
      var open := st.(mode := Quoted);
      FoldConcat(st, "\"" + Doubled(field), "\"");
      FoldConcat(st, "\"", Doubled(field));
      FoldOne(st, '"');
      FoldDoubled(open, field);
      assert open.field + field == field;
      FoldOne(open.(field := field), '"');
    } else {
      FoldPlain(st, field);
      assert "" + field == field;
    }
  }

  // ─── Reading back what was written ─────────────────────────────────────────────────

  lemma FoldCell(st: Scan, field: string)
    requires AtCellStart(st) && st.mode == Plain && !BareCr(field)
    ensures Fold(st, CsvEscape(field) + ",") == Scan(st.rows, st.row + [field], "", Plain)
  {
    FoldField(st, field);
    FoldConcat(st, CsvEscape(field), ",");
    FoldOne(Fold(st, CsvEscape(field)), ',');
  }

  /** State after a whole row, before its line end: the last field is still open. */
  ghost predicate RowOpen(st: Scan, row: Row, done: Scan)
    requires row != []
  {
    && done.mode in {Plain, QuoteSeen}
    && done.rows == st.rows && done.row == st.row + row[..|row| - 1] && done.field == row[|row| - 1]
  }

  lemma RowOpenMore(st: Scan, row: Row, done: Scan)
    requires |row| > 1 && RowOpen(Scan(st.rows, st.row + [row[0]], "", Plain), row[1..], done)
    ensures RowOpen(st, row, done)
  {
    var rest := row[1..];
    assert st.row + [row[0]] + rest[..|rest| - 1] == st.row + row[..|row| - 1];
  }

  lemma {:induction false} FoldRow(st: Scan, row: Row)
    requires AtCellStart(st) && st.mode == Plain && row != []
    requires forall field <- row :: !BareCr(field)
    ensures RowOpen(st, row, Fold(st, RenderRow(row)))
    decreases |row|
  {
    assert row[0] in row;
    if |row| == 1 {
      FoldField(st, row[0]);
      assert st.row + row[..0] == st.row;
    } else {
      var cell, rest := CsvEscape(row[0]) + ",", row[1..];
      var after := Scan(st.rows, st.row + [row[0]], "", Plain);
      FoldCell(st, row[0]);
      FoldConcat(st, cell, RenderRow(rest));
      FoldRow(after, rest);
      RowOpenMore(st, row, Fold(after, RenderRow(rest)));
    }
  }

  // ─── Line ends ─────────────────────────────────────────────────────────────────────

  /** After a CR only a line feed is special. */
  lemma AfterCrIsPlain(st: Scan, text: string)
    requires st.mode == AfterCr && text != "" && text[0] != '\n'
    ensures Fold(st, text) == Fold(st.(mode := Plain), text)
  {}

  /** A line end read outside quotes closes the open row, and that is all it does. */
  lemma EndRow(st: Scan, end: LineEnd)
    requires st.mode in {Plain, QuoteSeen}
    ensures Fold(st, Eol(end)) == Scan(st.rows + [st.row + [st.field]], [], "", if end == Cr then AfterCr else Plain)
  {
    match end
    case Lf => FoldOne(st, '\n');
    case Cr => FoldOne(st, '\r');
    case CrLf =>
      FoldConcat(st, "\r", "\n");
      FoldOne(st, '\r');
      FoldOne(Step(st, '\r'), '\n');
  }

  lemma CloseRow(st: Scan, row: Row)
    requires AtCellStart(st) && st.mode == Plain && st.row == [] && row != []
    requires forall field <- row :: !BareCr(field)
    ensures var done := Fold(st, RenderRow(row));
            done.mode in {Plain, QuoteSeen} && done.rows == st.rows && done.row + [done.field] == row
  {
    var done := Fold(st, RenderRow(row));
    FoldRow(st, row);
    assert done.row == row[..|row| - 1];
  }

  lemma RowStart(row: Row)
    requires row != [] && !LoneBlank(row)
    ensures RenderRow(row) != "" && RenderRow(row)[0] != '\n'
  {
    var cell := CsvEscape(row[0]);
    assert !NeedsQuotes(row[0]) && row[0] != "" ==> row[0][0] in row[0];
    assert cell != "" ==> RenderRow(row)[0] == cell[0];
  }

  lemma FoldLine(st: Scan, row: Row, end: LineEnd, text: string)
    requires AtCellStart(st) && st.mode == Plain && st.row == [] && row != []
    requires forall field <- row :: !BareCr(field)
    requires text != "" && text[0] != '\n'
    ensures Fold(st, RenderRow(row) + (Eol(end) + text)) == Fold(Scan(st.rows + [row], [], "", Plain), text)
  {
    CloseRow(st, row);
    var done := Fold(st, RenderRow(row));
    FoldConcat(st, RenderRow(row), Eol(end) + text);
    FoldConcat(done, Eol(end), text);
    EndRow(done, end);
    if end == Cr {
      AfterCrIsPlain(Scan(st.rows + [row], [], "", AfterCr), text);
    }
  }

  lemma TableStart(table: Table, end: LineEnd)
    requires table != [] && table[0] != [] && !LoneBlank(table[0])
    ensures Render(table, end) != "" && Render(table, end)[0] != '\n'
  {
    RowStart(table[0]);
  }

  lemma {:induction false} FoldTable(st: Scan, table: Table, end: LineEnd)
    requires AtCellStart(st) && st.mode == Plain && st.row == []
    requires forall row <- table :: row != [] && !LoneBlank(row)
    requires forall row <- table, field <- row :: !BareCr(field)
    ensures Finish(Fold(st, Render(table, end))) == st.rows + table
    decreases |table|
  {
    if table == [] {
    } else {
      assert table[0] in table;
      if |table| == 1 {
        CloseRow(st, table[0]);
        assert table == [table[0]];
      } else {
        assert forall row <- table[1..] :: row in table;
        assert table[1] in table;
        TableStart(table[1..], end);
        FoldLine(st, table[0], end, Render(table[1..], end));
        FoldTable(Scan(st.rows + [table[0]], [], "", Plain), table[1..], end);
        assert st.rows + [table[0]] + table[1..] == st.rows + table;
      }
    }
  }

  lemma {:induction false} DropKeeps(rows: Table)
    requires forall row <- rows :: !LoneBlank(row)
    ensures DropLoneBlanks(rows) == rows
  {
    if rows != [] {
      DropKeeps(rows[1..]);
      assert [rows[0]] + rows[1..] == rows;
    }
  }

  lemma {:induction false} DropConcat(a: Table, b: Table)
    ensures DropLoneBlanks(a + b) == DropLoneBlanks(a) + DropLoneBlanks(b)
  {
    if a == [] {
      assert a + b == b;
    } else {
      assert (a + b)[0] == a[0] && (a + b)[1..] == a[1..] + b;
      DropConcat(a[1..], b);
    }
  }

  lemma {:induction false} DropSubset(rows: Table)
    ensures forall row <- DropLoneBlanks(rows) :: row in rows && !LoneBlank(row)
    ensures |DropLoneBlanks(rows)| <= |rows|
    ensures |DropLoneBlanks(rows)| == |rows| ==> DropLoneBlanks(rows) == rows
  {
    if rows != [] {
      DropSubset(rows[1..]);
      assert [rows[0]] + rows[1..] == rows;
    }
  }

  // ─── Whatever is not faithful does not come back ───────────────────────────────────

  ghost predicate CleanRow(row: Row) {
    forall field <- row :: !BareCr(field)
  }

  /** Outside quotes, with no bare CR in anything collected so far. */
  ghost predicate CleanOpen(st: Scan) {
    && Outside(st) && (st.mode == AfterCr ==> st.field == "")
    && (forall row <- st.rows :: CleanRow(row)) && CleanRow(st.row) && !BareCr(st.field)
  }

  lemma {:induction false} FoldLoose(st: Scan, field: string)
    requires CleanOpen(st) && st.mode != QuoteSeen && '\r' !in st.field && !NeedsQuotes(field)
    ensures CleanOpen(Fold(st, field))
    decreases |field|
  {
    if field != "" {
      assert forall c <- field[1..] :: c in field;
      FoldLoose(Step(st, field[0]), field[1..]);
    }
  }

  lemma {:induction false} FoldRowClean(st: Scan, row: Row)
    requires CleanOpen(st) && AtCellStart(st)
    ensures CleanOpen(Fold(st, RenderRow(row)))
    decreases |row|
  {
    if row != [] {
      var cell, rest := CsvEscape(row[0]), row[1..];
      var after := Fold(st, cell);
      if NeedsQuotes(row[0]) {
        FoldField(st, row[0]);
      } else {
        FoldLoose(st, row[0]);
      }
      if |row| > 1 {
        var tail := RenderRow(rest);
        assert RenderRow(row) == cell + ("," + tail);
        FoldConcat(st, cell, "," + tail);
        FoldConcat(after, ",", tail);
        FoldOne(after, ',');
        FoldRowClean(Step(after, ','), rest);
      }
    }
  }

  lemma CleanEnd(st: Scan, end: LineEnd)
    requires CleanOpen(st)
    ensures CleanOpen(Fold(st, Eol(end))) && AtCellStart(Fold(st, Eol(end)))
  {
    match end
    case Lf => FoldOne(st, '\n');
    case Cr => FoldOne(st, '\r');
    case CrLf =>
      FoldConcat(st, "\r", "\n");
      FoldOne(st, '\r');
      FoldOne(Step(st, '\r'), '\n');
  }

  lemma {:induction false} FoldTableClean(st: Scan, table: Table, end: LineEnd)
    requires CleanOpen(st) && AtCellStart(st)
    ensures CleanOpen(Fold(st, Render(table, end)))
    decreases |table|
  {
    if table != [] {
      var after := Fold(st, RenderRow(table[0]));
      FoldRowClean(st, table[0]);
      if |table| > 1 {
        var rest := Render(table[1..], end);
        FoldConcat(st, RenderRow(table[0]), Eol(end) + rest);
        FoldConcat(after, Eol(end), rest);
        CleanEnd(after, end);
        FoldTableClean(Fold(after, Eol(end)), table[1..], end);
      }
    }
  }

  /** Every row the scanner ever returns has a field in it and is not a lone blank. */
  lemma {:induction false} FoldRowsNonEmpty(st: Scan, text: string)
    requires forall row <- st.rows :: row != []
    ensures forall row <- Fold(st, text).rows :: row != []
    decreases |text|
  {
    if text != "" {
      FoldRowsNonEmpty(Step(st, text[0]), text[1..]);
    }
  }

  lemma ParsedRows(text: string)
    ensures forall row <- Parse(text) :: row != [] && !LoneBlank(row)
  {
    FoldRowsNonEmpty(START, WithoutBom(text));
    DropSubset(Finish(Fold(START, WithoutBom(text))));
  }

  lemma ParsedFields(table: Table, end: LineEnd)
    ensures forall row <- DropLoneBlanks(Finish(Fold(START, Render(table, end)))) :: CleanRow(row)
  {
    FoldTableClean(START, table, end);
    DropSubset(Finish(Fold(START, Render(table, end))));
  }

  /** Rendering a table whose text starts with a BOM, less the BOM, renders the table less the BOM. */
  function LessBom(table: Table): Table
    requires StartsWithBom(table)
  {
    [[table[0][0][1..]] + table[0][1..]] + table[1..]
  }

  lemma EscapeLessBom(field: string)
    requires field != "" && field[0] == BOM && !NeedsQuotes(field)
    ensures CsvEscape(field)[0] == BOM && CsvEscape(field[1..]) == CsvEscape(field)[1..]
  {
    assert forall c <- field[1..] :: c in field;
  }

  lemma RowLessBom(row: Row)
    requires row != [] && row[0] != "" && row[0][0] == BOM && !NeedsQuotes(row[0])
    ensures RenderRow(row) != "" && RenderRow(row)[0] == BOM
    ensures RenderRow(row)[1..] == RenderRow([row[0][1..]] + row[1..])
  {
    EscapeLessBom(row[0]);
    var less := [row[0][1..]] + row[1..];
    assert less[1..] == row[1..];
  }

  function RestOfRender(table: Table, end: LineEnd): string {
    if |table| <= 1 then "" else Eol(end) + Render(table[1..], end)
  }

  lemma RenderHead(table: Table, end: LineEnd)
    requires table != []
    ensures Render(table, end) == RenderRow(table[0]) + RestOfRender(table, end)
  {
    assert RenderRow(table[0]) + "" == RenderRow(table[0]);
  }

  lemma DropFirst(a: string, b: string)
    requires a != ""
    ensures (a + b)[0] == a[0] && (a + b)[1..] == a[1..] + b
  {}

  lemma RenderLessBom(table: Table, end: LineEnd)
    requires StartsWithBom(table)
    ensures Render(table, end) != "" && Render(table, end)[0] == BOM
    ensures Render(table, end)[1..] == Render(LessBom(table), end)
  {
    var less := LessBom(table);
    RowLessBom(table[0]);
    RenderHead(table, end);
    RenderHead(less, end);
    assert less[1..] == table[1..];
    DropFirst(RenderRow(table[0]), RestOfRender(table, end));
  }

  lemma StartOfRender(table: Table, end: LineEnd)
    ensures Render(table, end) != "" && Render(table, end)[0] == BOM <==> StartsWithBom(table)
  {
    if StartsWithBom(table) {
      RenderLessBom(table, end);
    } else if table != [] && table[0] != [] {
      assert CsvEscape(table[0][0]) != "" ==> RenderRow(table[0])[0] == CsvEscape(table[0][0])[0];
    }
  }

  lemma UnfaithfulBom(table: Table, end: LineEnd)
    requires forall row <- table :: row != [] && !LoneBlank(row)
    requires forall row <- table, field <- row :: !BareCr(field)
    requires StartsWithBom(table)
    ensures Parse(Render(table, end)) != table
  {
    var less := LessBom(table);
    RenderLessBom(table, end);
    assert table[0] in table;
    assert less[0][0] == table[0][0][1..];
    assert !LoneBlank(less[0]) by {
      assert forall c <- table[0][0] :: c == BOM || c in less[0][0];
    }
    forall row <- less ensures row != [] && !LoneBlank(row) {
      if row != less[0] { assert row in table; }
    }
    forall row <- less, field <- row ensures !BareCr(field) {
      if row != less[0] {
        assert row in table;
      } else if field == less[0][0] {
        assert table[0][0] in table[0];
        assert forall c <- field :: c in table[0][0];
      } else {
        assert field in table[0];
      }
    }
    FoldTable(START, less, end);
    DropKeeps(less);
    assert less[0] != table[0];
  }

  lemma UnfaithfulCr(table: Table, end: LineEnd)
    requires exists row <- table, field <- row :: BareCr(field)
    ensures Parse(Render(table, end)) != table
  {
    var row, field :| row in table && field in row && BareCr(field);
    assert !CleanRow(row);
    StartOfRender(table, end);
    if StartsWithBom(table) {
      RenderLessBom(table, end);
      ParsedFields(LessBom(table), end);
    } else {
      ParsedFields(table, end);
    }
  }

  /**
   The round trip, with its exact condition: a table is read back as it was written if and only
   if none of its rows is empty or a lone blank field, no field holds a CR without also holding
   a quote, comma or LF, and the text does not begin with a byte-order mark.
   */
  lemma RoundTrip(table: Table, end: LineEnd)
    ensures Parse(Render(table, end)) == table <==> Faithful(table)
  {
    StartOfRender(table, end);
    if exists row <- table :: row == [] || LoneBlank(row) {
      ParsedRows(Render(table, end));
    } else if exists row <- table, field <- row :: BareCr(field) {
      UnfaithfulCr(table, end);
    } else if StartsWithBom(table) {
      UnfaithfulBom(table, end);
    } else {
      FoldTable(START, table, end);
      assert START.rows + table == table;
      DropKeeps(table);
    }
  }

  // ─── Texts put together ────────────────────────────────────────────────────────────

  /** Rows already collected are only carried along. */
  lemma {:induction false} FoldFrame(st: Scan, before: Table, text: string)
    ensures var framed := Fold(st.(rows := before + st.rows), text);
            framed == Fold(st, text).(rows := before + Fold(st, text).rows)
    decreases |text|
  {
    if text != "" {
      var next := Step(st, text[0]);
      assert forall r: Table :: before + (st.rows + r) == before + st.rows + r;
      assert Step(st.(rows := before + st.rows), text[0]) == next.(rows := before + next.rows);
      FoldFrame(next, before, text[1..]);
    }
  }

  /** A line end outside quotes leaves the scanner with the rows it would have finished with. */
  lemma EndsLine(st: Scan, end: LineEnd)
    requires Outside(st) && (st.mode == AfterCr ==> st.field == "" && st.row == [])
    ensures var ended := Fold(st, Eol(end));
            && ended == Scan(ended.rows, [], "", if end == Cr then AfterCr else Plain)
            && DropLoneBlanks(ended.rows) == DropLoneBlanks(Finish(st))
  {
    if st.mode != AfterCr {
      EndRow(st, end);
    } else {
      CleanCrEnd(st, end);
    }
    DropLast(st.rows, st.row + [st.field]);
    if st.row == [] && st.field == "" {
      DropLast(st.rows, [""]);
      assert st.row + [st.field] == [""];
      assert DropLoneBlanks(st.rows) + [] == DropLoneBlanks(st.rows);
    }
  }

  lemma CleanCrEnd(st: Scan, end: LineEnd)
    requires st.mode == AfterCr && st.field == "" && st.row == []
    ensures Fold(st, Eol(end))
            == Scan(if end == Lf then st.rows else st.rows + [[""]], [], "", if end == Cr then AfterCr else Plain)
  {
    assert st.row + [st.field] == [""];
    match end
    case Lf => FoldOne(st, '\n');
    case Cr => FoldOne(st, '\r');
    case CrLf =>
      FoldConcat(st, "\r", "\n");
      FoldOne(st, '\r');
      FoldOne(Step(st, '\r'), '\n');
  }

  lemma {:induction false} AfterCrIsEmpty(st: Scan, text: string)
    requires st.mode == AfterCr ==> st.field == "" && st.row == []
    ensures Fold(st, text).mode == AfterCr ==> Fold(st, text).field == "" && Fold(st, text).row == []
    decreases |text|
  {
    if text != "" {
      AfterCrIsEmpty(Step(st, text[0]), text[1..]);
    }
  }

  lemma BomStays(a: string, b: string)
    ensures a != "" ==> WithoutBom(a + b) == WithoutBom(a) + b
  {}

  /** From a fresh row, with rows already collected, a text is scanned as on its own. */
  lemma Fresh(rows: Table, mode: Mode, text: string)
    requires mode == Plain || (mode == AfterCr && (text == "" || text[0] != '\n'))
    ensures Finish(Fold(Scan(rows, [], "", mode), text)) == rows + Finish(Fold(START, text))
  {
    if mode == AfterCr && text != "" {
      AfterCrIsPlain(Scan(rows, [], "", AfterCr), text);
    }
    if text != "" || mode == Plain {
      FoldFrame(START, rows, text);
      assert rows + START.rows == rows;
      var tail := Fold(START, text);
      assert Finish(tail.(rows := rows + tail.rows)) == rows + Finish(tail);
    }
  }

  /**
   Two texts joined by a line end outside quotes, of whichever of the three kinds, hold the rows of
   the first and then those of the second. A CR must not meet a LF that begins the second text.
   */
  lemma Lines(a: string, end: LineEnd, b: string)
    requires EndsOutsideQuotes(a)
    requires WithoutBom(b) == b && (end == Cr ==> b == "" || b[0] != '\n')
    ensures Parse(a + Eol(end) + b) == Parse(a) + Parse(b)
  {
    var st := Fold(START, WithoutBom(a));
    var ended := Fold(st, Eol(end));
    OutsideIsEven(a);
    assert a + Eol(end) + b == a + (Eol(end) + b);
    BomStays(a, Eol(end) + b);
    assert WithoutBom(a + Eol(end) + b) == WithoutBom(a) + (Eol(end) + b);
    FoldConcat(START, WithoutBom(a), Eol(end) + b);
    FoldConcat(st, Eol(end), b);
    AfterCrIsEmpty(START, WithoutBom(a));
    EndsLine(st, end);
    Fresh(ended.rows, ended.mode, b);
    DropConcat(ended.rows, Finish(Fold(START, b)));
  }

  /** Quotes still open, and what is open is the only field of its row and blank. */
  predicate OpenOnBlank(text: string) {
    var st := Fold(START, WithoutBom(text));
    st.mode == Quoted && st.row == [] && Blank(st.field)
  }

  lemma DropLast(rows: Table, last: Row)
    ensures DropLoneBlanks(rows + [last]) == DropLoneBlanks(rows) + if LoneBlank(last) then [] else [last]
  {
    DropConcat(rows, [last]);
    assert [last][1..] == [];
    assert DropLoneBlanks([last]) == if LoneBlank(last) then [] else [last];
  }

  /** Inside quotes a line end is data: it lengthens the open field. */
  lemma OpenLineEnd(st: Scan, end: LineEnd)
    requires st.mode == Quoted
    ensures Fold(st, Eol(end)) == st.(field := st.field + Eol(end))
  {
    match end
    case Lf => FoldOne(st, '\n');
    case Cr => FoldOne(st, '\r');
    case CrLf =>
      FoldConcat(st, "\r", "\n");
      FoldOne(st, '\r');
      FoldOne(Step(st, '\r'), '\n');
      assert st.field + ['\r'] + ['\n'] == st.field + "\r\n";
  }

  lemma BlankLonger(field: string, end: LineEnd)
    ensures Blank(field + Eol(end)) <==> Blank(field)
  {
    var longer := field + Eol(end);
    assert longer[..|field|] == field;
    assert forall c <- Eol(end) :: IsSpace(c);
    assert forall c <- longer :: c in field || c in Eol(end);
    assert forall c <- field :: c in longer;
  }

  lemma LongerDiffers(st: Scan, longer: string)
    requires |longer| > |st.field| && (Blank(longer) <==> Blank(st.field))
    ensures DropLoneBlanks(Finish(st.(field := longer))) == DropLoneBlanks(Finish(st))
            <==> st.row == [] && Blank(st.field)
  {
    var last, ended := st.row + [st.field], st.row + [longer];
    assert last[|st.row|] != ended[|st.row|];
    DropLast(st.rows, last);
    DropLast(st.rows, ended);
    if st.row == [] && st.field == "" {
      assert Finish(st) == st.rows;
    } else {
      assert Finish(st) == st.rows + [last];
    }
    var kept := DropLoneBlanks(st.rows);
    assert (kept + [last])[|kept|] == last && (kept + [ended])[|kept|] == ended;
  }

  /** A final line end, of any kind, changes nothing exactly when it falls outside quotes or into a blank row. */
  lemma FinalLineEnd(text: string, end: LineEnd)
    ensures Parse(text + Eol(end)) == Parse(text) <==> EndsOutsideQuotes(text) || OpenOnBlank(text)
  {
    var st := Fold(START, WithoutBom(text));
    OutsideIsEven(text);
    if EndsOutsideQuotes(text) {
      Lines(text, end, "");
      assert text + Eol(end) + "" == text + Eol(end);
      assert Parse(text) + [] == Parse(text);
    } else {
      BomStays(text, Eol(end));
      FoldConcat(START, WithoutBom(text), Eol(end));
      OpenLineEnd(st, end);
      BlankLonger(st.field, end);
      LongerDiffers(st, st.field + Eol(end));
    }
  }

  lemma {:induction false} QuotesConcat(a: string, b: string)
    ensures Quotes(a + b) == Quotes(a) + Quotes(b)
    decreases |a|
  {
    if a == "" {
      assert a + b == b;
    } else {
      assert (a + b)[0] == a[0] && (a + b)[1..] == a[1..] + b;
      QuotesConcat(a[1..], b);
    }
  }

  lemma {:induction false} QuotesDoubled(field: string)
    ensures Quotes(Doubled(field)) % 2 == 0
  {
    if field != "" {
      var head := if field[0] == '"' then "\"\"" else [field[0]];
      QuotesDoubled(field[1..]);
      QuotesConcat(head, Doubled(field[1..]));
      if field[0] == '"' {
        assert head[1..] == "\"" && "\""[1..] == "";
      } else {
        assert head[1..] == "";
      }
    }
  }

  lemma {:induction false} NoQuotes(field: string)
    requires '"' !in field
    ensures Quotes(field) == 0
  {
    if field != "" {
      assert forall c <- field[1..] :: c in field;
      assert field[0] in field;
      NoQuotes(field[1..]);
    }
  }

  lemma EscapeCloses(field: string)
    ensures Quotes(CsvEscape(field)) % 2 == 0
  {
    if NeedsQuotes(field) {
      QuotesDoubled(field);
      QuotesConcat("\"" + Doubled(field), "\"");
      QuotesConcat("\"", Doubled(field));
      assert "\""[1..] == "";
    } else {
      NoQuotes(field);
    }
  }

  lemma {:induction false} RowCloses(row: Row)
    ensures Quotes(RenderRow(row)) % 2 == 0
  {
    if row != [] {
      EscapeCloses(row[0]);
      if |row| > 1 {
        RowCloses(row[1..]);
        QuotesConcat(CsvEscape(row[0]) + ",", RenderRow(row[1..]));
        QuotesConcat(CsvEscape(row[0]), ",");
        NoQuotes(",");
      }
    }
  }

  lemma BothClose(a: string, b: string)
    requires Quotes(a) % 2 == 0 && Quotes(b) % 2 == 0
    ensures Quotes(a + b) % 2 == 0
  {
    QuotesConcat(a, b);
  }

  lemma {:induction false} RenderCloses(table: Table, end: LineEnd)
    ensures EndsOutsideQuotes(Render(table, end))
  {
    if table != [] {
      RowCloses(table[0]);
      RenderHead(table, end);
      if |table| > 1 {
        RenderCloses(table[1..], end);
        NoQuotes(Eol(end));
        BothClose(Eol(end), Render(table[1..], end));
      }
      BothClose(RenderRow(table[0]), RestOfRender(table, end));
    }
  }

  /** A table as it is written to disk, its last line ended or not. */
  function Written(table: Table, end: LineEnd, ended: bool): string {
    Render(table, end) + if ended then Eol(end) else ""
  }

  /** The round trip of files: the line ends, the last one included, make no difference. */
  lemma FileRoundTrip(table: Table, end: LineEnd, ended: bool)
    ensures Parse(Written(table, end, ended)) == table <==> Faithful(table)
  {
    RoundTrip(table, end);
    if ended {
      RenderCloses(table, end);
      FinalLineEnd(Render(table, end), end);
    } else {
      assert Render(table, end) + "" == Render(table, end);
    }
  }

  // ─── Every spelling of a row ───────────────────────────────────────────────────────

  /** A cell as anybody may spell it: bare text and quoted text, one after another. */
  datatype Piece = Bare(text: string) | InQuotes(text: string)

  type Cell = seq<Piece>

  predicate PieceOk(p: Piece) {
    p.Bare? ==> !NeedsQuotes(p.text) && '\r' !in p.text && p.text != ""
  }

  /** Two quoted pieces do not meet: their quotes would read as one. */
  predicate CellOk(cell: Cell) {
    && (forall p <- cell :: PieceOk(p))
    && forall i :: 0 < i < |cell| ==> cell[i - 1].Bare? || cell[i].Bare?
  }

  function SpellPiece(p: Piece): string {
    if p.Bare? then p.text else "\"" + (Doubled(p.text) + "\"")
  }

  function Spell(cell: Cell): string {
    if cell == [] then "" else Spell(cell[..|cell| - 1]) + SpellPiece(cell[|cell| - 1])
  }

  function Value(cell: Cell): string {
    if cell == [] then "" else Value(cell[..|cell| - 1]) + cell[|cell| - 1].text
  }

  lemma FoldPiece(st: Scan, p: Piece)
    requires PieceOk(p) && st.mode in {Plain, QuoteSeen} && (st.mode == QuoteSeen ==> p.Bare?)
    ensures Fold(st, SpellPiece(p)) == st.(field := st.field + p.text, mode := if p.Bare? then Plain else QuoteSeen)
  {
    match p
    case Bare(text) =>
      assert text[0] in text;
      assert Step(st, text[0]) == Step(st.(mode := Plain), text[0]);
      FoldPlain(st.(mode := Plain), text);
    case InQuotes(text) =>
      var open := st.(mode := Quoted);
      FoldConcat(st, "\"", Doubled(text) + "\"");
      FoldOne(st, '"');
      FoldConcat(open, Doubled(text), "\"");
      FoldDoubled(open, text);
      FoldOne(open.(field := st.field + text), '"');
  }

  lemma CellInit(cell: Cell)
    requires CellOk(cell) && cell != []
    ensures var n := |cell| - 1;
            && CellOk(cell[..n]) && PieceOk(cell[n])
            && (n > 0 ==> cell[..n][n - 1] == cell[n - 1] && (cell[n - 1].Bare? || cell[n].Bare?))
  {
    assert forall p <- cell[..|cell| - 1] :: p in cell;
  }

  predicate CellRead(st: Scan, cell: Cell, done: Scan) {
    done == st.(field := st.field + Value(cell),
                mode := if cell != [] && cell[|cell| - 1].InQuotes? then QuoteSeen else Plain)
  }

  lemma FoldThen(st: Scan, a: string, mid: Scan, b: string, done: Scan)
    requires Fold(st, a) == mid && Fold(mid, b) == done
    ensures Fold(st, a + b) == done
  {
    FoldConcat(st, a, b);
  }

  lemma PieceMore(st: Scan, value: string, mode: Mode, p: Piece)
    requires PieceOk(p) && mode in {Plain, QuoteSeen} && (mode == QuoteSeen ==> p.Bare?)
    ensures Fold(st.(field := st.field + value, mode := mode), SpellPiece(p))
            == st.(field := st.field + (value + p.text), mode := if p.Bare? then Plain else QuoteSeen)
  {
    FoldPiece(st.(field := st.field + value, mode := mode), p);
    assert st.field + value + p.text == st.field + (value + p.text);
  }

  /** However a cell is spelled, its value is what is read, wherever it stands. */
  lemma {:induction false} FoldCellSpelled(st: Scan, cell: Cell)
    requires CellOk(cell) && st.mode == Plain
    ensures CellRead(st, cell, Fold(st, Spell(cell)))
  {
    if cell == [] {
      assert st.field + "" == st.field;
    } else {
      var n := |cell| - 1;
      CellInit(cell);
      FoldCellSpelled(st, cell[..n]);
      var before := Fold(st, Spell(cell[..n]));
      PieceMore(st, Value(cell[..n]), before.mode, cell[n]);
      FoldThen(st, Spell(cell[..n]), before, SpellPiece(cell[n]), Fold(before, SpellPiece(cell[n])));
    }
  }

  function SpellRow(cells: seq<Cell>): string {
    if cells == [] then ""
    else if |cells| == 1 then Spell(cells[0])
    else SpellRow(cells[..|cells| - 1]) + ("," + Spell(cells[|cells| - 1]))
  }

  function ValuesOf(cells: seq<Cell>): Row {
    if cells == [] then [] else ValuesOf(cells[..|cells| - 1]) + [Value(cells[|cells| - 1])]
  }

  lemma CellNext(before: Scan, text: string, cell: Cell)
    requires before == Fold(START, text) && before.mode in {Plain, QuoteSeen} && CellOk(cell)
    ensures var done := Fold(START, text + ("," + Spell(cell)));
            && done.rows == before.rows && done.row == before.row + [before.field] && done.field == Value(cell)
            && done.mode in {Plain, QuoteSeen}
  {
    FoldConcat(START, text, "," + Spell(cell));
    FoldConcat(before, ",", Spell(cell));
    FoldOne(before, ',');
    FoldCellSpelled(Step(before, ','), cell);
    assert "" + Value(cell) == Value(cell);
  }

  lemma CellsInit(cells: seq<Cell>, n: nat)
    requires |cells| == n + 1 && forall cell <- cells :: CellOk(cell)
    ensures CellOk(cells[n]) && forall cell <- cells[..n] :: CellOk(cell)
  {
    assert cells[n] in cells && forall cell <- cells[..n] :: cell in cells;
  }

  lemma SpellMore(cells: seq<Cell>, n: nat)
    requires |cells| == n + 1 && n > 0
    ensures SpellRow(cells) == SpellRow(cells[..n]) + ("," + Spell(cells[n]))
    ensures ValuesOf(cells) == ValuesOf(cells[..n]) + [Value(cells[n])]
  {}

  /** The row is still open, its last field being read. */
  predicate RowRead(done: Scan, values: Row) {
    done.rows == [] && done.mode in {Plain, QuoteSeen} && done.row + [done.field] == values
  }

  lemma RowMore(before: Scan, text: string, values: Row, cell: Cell)
    requires before == Fold(START, text) && RowRead(before, values) && CellOk(cell)
    ensures RowRead(Fold(START, text + ("," + Spell(cell))), values + [Value(cell)])
  {
    CellNext(before, text, cell);
  }

  lemma {:induction false} FoldRowSpelled(cells: seq<Cell>)
    requires cells != [] && forall cell <- cells :: CellOk(cell)
    ensures RowRead(Fold(START, SpellRow(cells)), ValuesOf(cells))
  {
    var n := |cells| - 1;
    CellsInit(cells, n);
    if n == 0 {
      FoldCellSpelled(START, cells[0]);
      assert "" + Value(cells[0]) == Value(cells[0]);
    } else {
      FoldRowSpelled(cells[..n]);
      SpellMore(cells, n);
      RowMore(Fold(START, SpellRow(cells[..n])), SpellRow(cells[..n]), ValuesOf(cells[..n]), cells[n]);
    }
  }

  /**
   Whatever the spelling, quotes in the middle of a field included, a line is read as the values
   of its cells. With `Lines` this settles every text of such lines, with any line ends.
   */
  lemma RowSpelled(cells: seq<Cell>)
    requires cells != [] && forall cell <- cells :: CellOk(cell)
    requires WithoutBom(SpellRow(cells)) == SpellRow(cells)
    ensures Parse(SpellRow(cells)) == if LoneBlank(ValuesOf(cells)) then [] else [ValuesOf(cells)]
  {
    FoldRowSpelled(cells);
    var row, done := ValuesOf(cells), Fold(START, SpellRow(cells));
    DropLast([], row);
    assert [] + [row] == [row];
    if done.row == [] && done.field == "" {
      assert LoneBlank(row);
    }
  }

  /** A line of a file: its cells and how it ends. */
  datatype Line = Line(cells: seq<Cell>, end: LineEnd)

  predicate LineOk(line: Line) {
    && line.cells != [] && (forall cell <- line.cells :: CellOk(cell))
    && WithoutBom(SpellRow(line.cells)) == SpellRow(line.cells)
  }

  /** A CR and a LF of two lines must not meet: they would be one line end. */
  predicate Apart(line: Line, next: Line) {
    line.end == Cr ==> next.end != Lf || SpellRow(next.cells) != ""
  }

  predicate LinesOk(lines: seq<Line>) {
    && (forall line <- lines :: LineOk(line))
    && forall i :: 0 < i < |lines| ==> Apart(lines[i - 1], lines[i])
  }

  function SpellFile(lines: seq<Line>): string {
    if lines == [] then "" else SpellRow(lines[0].cells) + Eol(lines[0].end) + SpellFile(lines[1..])
  }

  function RowsOf(lines: seq<Line>): Table {
    if lines == [] then [] else [ValuesOf(lines[0].cells)] + RowsOf(lines[1..])
  }

  lemma LinesTail(lines: seq<Line>)
    requires LinesOk(lines) && lines != []
    ensures LineOk(lines[0]) && LinesOk(lines[1..]) && (|lines| > 1 ==> LineOk(lines[1]) && Apart(lines[0], lines[1]))
  {
    assert forall line <- lines[1..] :: line in lines;
    forall i | 0 < i < |lines[1..]| ensures Apart(lines[1..][i - 1], lines[1..][i]) {
      assert Apart(lines[i], lines[i + 1]);
    }
  }

  /** What stands at the start of a spelled row is no line feed, unless the row is spelled as nothing. */
  lemma {:induction false} PieceStart(cell: Cell)
    requires CellOk(cell)
    ensures Spell(cell) != "" ==> Spell(cell)[0] != '\n'
  {
    if cell != [] {
      var n := |cell| - 1;
      CellInit(cell);
      PieceStart(cell[..n]);
      if Spell(cell[..n]) == "" && cell[n].Bare? {
        assert cell[n].text[0] in cell[n].text;
      }
    }
  }

  lemma {:induction false} SpelledStart(cells: seq<Cell>)
    requires forall cell <- cells :: CellOk(cell)
    ensures SpellRow(cells) != "" ==> SpellRow(cells)[0] != '\n'
  {
    if cells != [] {
      var n := |cells| - 1;
      PieceStart(cells[0]);
      if n > 0 {
        assert forall cell <- cells[..n] :: cell in cells;
        SpelledStart(cells[..n]);
      }
    }
  }

  lemma FileStart(line: Line, lines: seq<Line>)
    requires LinesOk(lines) && (lines != [] ==> LineOk(lines[0]) && Apart(line, lines[0]))
    ensures WithoutBom(SpellFile(lines)) == SpellFile(lines)
    ensures line.end == Cr ==> SpellFile(lines) == "" || SpellFile(lines)[0] != '\n'
  {
    if lines != [] {
      SpelledStart(lines[0].cells);
    }
  }

  lemma SpellingCloses(cells: seq<Cell>)
    requires cells != [] && forall cell <- cells :: CellOk(cell)
    requires WithoutBom(SpellRow(cells)) == SpellRow(cells)
    ensures EndsOutsideQuotes(SpellRow(cells))
  {
    FoldRowSpelled(cells);
    OutsideIsEven(SpellRow(cells));
  }

  /** Whole files: any spelling of every cell, any line end on every line. */
  lemma {:induction false} FileSpelled(lines: seq<Line>)
    requires LinesOk(lines)
    ensures Parse(SpellFile(lines)) == DropLoneBlanks(RowsOf(lines))
  {
    if lines != [] {
      var line, rest := lines[0], lines[1..];
      LinesTail(lines);
      FileSpelled(rest);
      FileStart(line, rest);
      SpellingCloses(line.cells);
      Lines(SpellRow(line.cells), line.end, SpellFile(rest));
      RowSpelled(line.cells);
      DropConcat([ValuesOf(line.cells)], RowsOf(rest));
      DropLast([], ValuesOf(line.cells));
      assert [] + [ValuesOf(line.cells)] == [ValuesOf(line.cells)];
    }
  }
}
