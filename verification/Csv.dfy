/** The CSV automaton of the position files, and the printing it reads back: every field quoted, quotes
    doubled, rows ended by CR LF (section 2 of RFC 4180). */
module Csv {
  import opened Wrappers
  import opened Texts
  import M = Money
  import D = DecimalText

  type Table = seq<seq<string>>

  // ----- The automaton -----

  datatype Scan = Scan(rows: Table, row: seq<string>, field: string, quoted: bool)

  const START := Scan([], [], "", false)

  function StripCr(s: string): string {
    if s != [] && s[|s|-1] == '\r' then s[..|s|-1] else s
  }

  function EndRow(s: Scan): Scan { Scan(s.rows + [s.row + [StripCr(s.field)]], [], "", s.quoted) }

  /** The rest of the input read from a state; None is the error of an unterminated quote. */
  function Run(s: Scan, input: string): Option<Table>
    decreases |input|
  {
    if input == [] then
      if s.quoted then None
      else if s.field != "" || s.row != [] then Some(EndRow(s).rows)
      else Some(s.rows)
    else
      var c := input[0];
      if s.quoted then
        if c == '"' && |input| > 1 && input[1] == '"' then Run(s.(field := s.field + "\""), input[2..])
        else if c == '"' then Run(s.(quoted := false), input[1..])
        else Run(s.(field := s.field + [c]), input[1..])
      else if c == '"' && s.field == "" then Run(s.(quoted := true), input[1..])
      else if c == ',' then Run(s.(row := s.row + [s.field], field := ""), input[1..])
      else if c == '\n' then Run(EndRow(s), input[1..])
      else Run(s.(field := s.field + [c]), input[1..])
  }

  /** The loop over the characters. */
  method ParseCsv(input: string) returns (result: Option<Table>)
    ensures result == Run(START, input)
  {
    var rows: Table := [];
    var row: seq<string> := [];
    var field := "";
    var quoted := false;
    var index := 0;
    while index < |input|
      invariant 0 <= index <= |input|
      invariant Run(START, input) == Run(Scan(rows, row, field, quoted), input[index..])
    {
      var character := input[index];
      assert input[index..][0] == character && input[index..][1..] == input[index+1..];
      if quoted {
        if character == '"' && index + 1 < |input| && input[index+1] == '"' {
          assert input[index..][1] == '"' && input[index..][2..] == input[index+2..];
          field := field + "\"";
          index := index + 1;
        } else if character == '"' {
          quoted := false;
        } else {
          field := field + [character];
        }
      } else if character == '"' && field == "" {
        quoted := true;
      } else if character == ',' {
        row := row + [field];
        field := "";
      } else if character == '\n' {
        row := row + [StripCr(field)];
        rows := rows + [row];
        row := [];
        field := "";
      } else {
        field := field + [character];
      }
      index := index + 1;
    }
    if quoted { return None; }
    if field != "" || row != [] {
      row := row + [StripCr(field)];
      rows := rows + [row];
    }
    result := Some(rows);
  }

  // ----- Printing -----

  function Doubled(s: string): string {
    if s == [] then [] else (if s[0] == '"' then "\"\"" else [s[0]]) + Doubled(s[1..])
  }

  function PrintField(f: string): string { "\"" + Doubled(f) + "\"" }

  function PrintRow(row: seq<string>): string
    requires row != []
  {
    if |row| == 1 then PrintField(row[0]) else PrintField(row[0]) + "," + PrintRow(row[1..])
  }

  predicate NonEmptyRows(table: Table) { forall i :: 0 <= i < |table| ==> table[i] != [] }

  function Print(table: Table, end: string): string
    requires NonEmptyRows(table)
  {
    if table == [] then "" else PrintRow(table[0]) + end + Print(table[1..], end)
  }

  const CRLF := "\r\n"
  const LF := "\n"

  // ----- Reading back what was printed -----

  lemma RunQuotedChar(s: Scan, c: char, more: string)
    requires s.quoted
    ensures Run(s, (if c == '"' then "\"\"" else [c]) + more) == Run(s.(field := s.field + [c]), more)
  {
    var first := if c == '"' then "\"\"" else [c];
    assert (first + more)[|first|..] == more;
  }

  lemma RunQuoteEnd(s: Scan, tail: string)
    requires s.quoted && (tail == [] || tail[0] != '"')
    ensures Run(s, "\"" + tail) == Run(s.(quoted := false), tail)
  {
    assert ("\"" + tail)[1..] == tail;
  }

  lemma DoubledEmpty()
    ensures Doubled("") == ""
  {}

  lemma DoubledSplit(f: string, tail: string)
    requires f != []
    ensures Doubled(f) + "\"" + tail == (if f[0] == '"' then "\"\"" else [f[0]]) + (Doubled(f[1..]) + "\"" + tail)
  {}

  lemma {:induction false} RunQuoted(s: Scan, f: string, tail: string)
    requires s.quoted && (tail == [] || tail[0] != '"')
    ensures Run(s, Doubled(f) + "\"" + tail) == Run(s.(field := s.field + f, quoted := false), tail)
    decreases |f|
  {
    hide Run, Doubled;
    if f == [] {
      assert Doubled(f) + "\"" + tail == "\"" + tail by { DoubledEmpty(); }
      assert s.field + f == s.field;
      RunQuoteEnd(s, tail);
    } else {
      DoubledSplit(f, tail);
      RunQuotedChar(s, f[0], Doubled(f[1..]) + "\"" + tail);
      var next := s.(field := s.field + [f[0]]);
      RunQuoted(next, f[1..], tail);
      assert next.field + f[1..] == s.field + f;
    }
  }

  lemma RunField(s: Scan, f: string, tail: string)
    requires !s.quoted && s.field == "" && (tail == [] || tail[0] != '"')
    ensures Run(s, PrintField(f) + tail) == Run(s.(field := f), tail)
  {
    assert PrintField(f) + tail == "\"" + (Doubled(f) + "\"" + tail);
    RunQuoted(s.(quoted := true), f, tail);
    assert "" + f == f;
  }

  lemma RunComma(s: Scan, more: string)
    requires !s.quoted
    ensures Run(s, "," + more) == Run(s.(row := s.row + [s.field], field := ""), more)
  {
    assert ("," + more)[1..] == more;
  }

  lemma {:induction false} RunRow(s: Scan, row: seq<string>, tail: string)
    requires row != [] && !s.quoted && s.field == "" && (tail == [] || tail[0] != '"')
    ensures Run(s, PrintRow(row) + tail) == Run(s.(row := s.row + row[..|row|-1], field := row[|row|-1]), tail)
    decreases |row|
  {
    hide Run, PrintField;
    if |row| == 1 {
      RunField(s, row[0], tail);
      assert s.row + row[..0] == s.row;
    } else {
      var more := PrintRow(row[1..]) + tail;
      assert PrintRow(row) + tail == PrintField(row[0]) + ("," + more);
      RunField(s, row[0], "," + more);
      RunComma(s.(field := row[0]), more);
      var next := s.(row := s.row + [row[0]]);
      RunRow(next, row[1..], tail);
      assert next.row + row[1..][..|row|-2] == s.row + row[..|row|-1];
    }
  }

  /** The row that a printed row is read as, with each of the two row ends. */
  function ReadRow(row: seq<string>, end: string): seq<string>
    requires row != []
  {
    if end == CRLF then row else row[..|row|-1] + [StripCr(row[|row|-1])]
  }

  lemma RunEnd(s: Scan, row: seq<string>, end: string, tail: string)
    requires row != [] && !s.quoted && s.row == row[..|row|-1] && s.field == row[|row|-1] && (end == CRLF || end == LF)
    ensures Run(s, end + tail) == Run(Scan(s.rows + [ReadRow(row, end)], [], "", false), tail)
  {
    if end == CRLF {
      assert (end + tail)[1..] == "\n" + tail;
      var t := s.(field := s.field + "\r");
      assert Run(s, end + tail) == Run(t, "\n" + tail);
      assert StripCr(t.field) == s.field;
      assert ("\n" + tail)[1..] == tail;
      assert s.row + [s.field] == row;
    } else {
      assert (end + tail)[1..] == tail;
    }
  }

  function ReadTable(table: Table, end: string): Table
    requires NonEmptyRows(table)
  {
    if table == [] then [] else [ReadRow(table[0], end)] + ReadTable(table[1..], end)
  }

  lemma {:induction false} RunTable(rows: Table, table: Table, end: string)
    requires NonEmptyRows(table) && (end == CRLF || end == LF)
    ensures Run(Scan(rows, [], "", false), Print(table, end)) == Some(rows + ReadTable(table, end))
    decreases |table|
  {
    if table == [] {
      assert rows + ReadTable(table, end) == rows;
    } else {
      var row, more := table[0], Print(table[1..], end);
      var s := Scan(rows, [], "", false);
      assert Print(table, end) == PrintRow(row) + (end + more);
      RunRow(s, row, end + more);
      assert [] + row[..|row|-1] == row[..|row|-1];
      RunEnd(s.(row := row[..|row|-1], field := row[|row|-1]), row, end, more);
      RunTable(rows + [ReadRow(row, end)], table[1..], end);
      assert rows + [ReadRow(row, end)] + ReadTable(table[1..], end) == rows + ReadTable(table, end);
    }
  }

  lemma {:induction false} CrlfKeepsRows(table: Table)
    requires NonEmptyRows(table)
    ensures ReadTable(table, CRLF) == table
  {
    if table != [] { CrlfKeepsRows(table[1..]); }
  }

  /** Every table of non-empty rows is read back exactly, whatever commas, quotes, CR or LF its fields hold. */
  lemma RoundTrip(table: Table)
    requires NonEmptyRows(table)
    ensures Run(START, Print(table, CRLF)) == Some(table)
  {
    RunTable([], table, CRLF);
    CrlfKeepsRows(table);
    assert [] + table == table;
  }

  predicate EndsWithCr(s: string) { s != [] && s[|s|-1] == '\r' }

  predicate NoFinalCr(table: Table)
    requires NonEmptyRows(table)
  {
    forall i :: 0 <= i < |table| ==> !EndsWithCr(table[i][|table[i]|-1])
  }

  lemma {:induction false} LfKeepsRows(table: Table)
    requires NonEmptyRows(table)
    ensures ReadTable(table, LF) == table <==> NoFinalCr(table)
  {
    assert LF != CRLF by { assert |LF| != |CRLF|; }
    if table != [] {
      var row, rest := table[0], table[1..];
      LfKeepsRows(rest);
      assert forall i :: 0 < i < |table| ==> table[i] == rest[i-1];
      assert forall i :: 0 <= i < |rest| ==> rest[i] == table[i+1];
      assert NoFinalCr(table) <==> !EndsWithCr(row[|row|-1]) && NoFinalCr(rest);
      assert row[..|row|-1] + [row[|row|-1]] == row;
      assert ReadTable(table, LF)[0] == ReadRow(row, LF) && ReadTable(table, LF)[1..] == ReadTable(rest, LF);
      assert ReadRow(row, LF)[|row|-1] == StripCr(row[|row|-1]);
      assert ReadTable(table, LF) == table <==> ReadRow(row, LF) == row && ReadTable(rest, LF) == rest;
    }
  }

  /** With bare LF row ends the last field of a row loses a final CR: a table comes back exactly when no
      row's last field ends with one. */
  lemma LineFeedRoundTrip(table: Table)
    requires NonEmptyRows(table)
    ensures Run(START, Print(table, LF)) == Some(table) <==> NoFinalCr(table)
  {
    RunTable([], table, LF);
    LfKeepsRows(table);
    assert [] + ReadTable(table, LF) == ReadTable(table, LF);
  }

  // ----- Reading every spelling of a table -----

  /** A field may be written quoted, or bare when it holds no comma or line feed and does not start with a quote. */
  predicate Writes(text: string, f: string) {
    text == PrintField(f) || (text == f && (f == "" || f[0] != '"') && ',' !in f && '\n' !in f)
  }

  predicate WritesRow(texts: seq<string>, row: seq<string>) {
    |texts| == |row| && row != [] && forall i :: 0 <= i < |row| ==> Writes(texts[i], row[i])
  }

  predicate WritesTable(texts: seq<seq<string>>, table: Table) {
    |texts| == |table| && forall i :: 0 <= i < |table| ==> WritesRow(texts[i], table[i])
  }

  /** The fields of every row joined by commas, every row ended by CR LF. */
  function Lines(texts: seq<seq<string>>): string {
    if texts == [] then "" else Joined(texts[0]) + CRLF + Lines(texts[1..])
  }

  lemma {:induction false} RunBare(s: Scan, f: string, tail: string)
    requires !s.quoted && (s.field != "" || f == "" || f[0] != '"') && ',' !in f && '\n' !in f
    ensures Run(s, f + tail) == Run(s.(field := s.field + f), tail)
    decreases |f|
  {
    if f == [] {
      assert f + tail == tail && s.field + f == s.field;
    } else {
      var next := s.(field := s.field + [f[0]]);
      assert (f + tail)[1..] == f[1..] + tail;
      assert f[0] in f && forall c <- f[1..] :: c in f;
      assert Run(s, f + tail) == Run(next, f[1..] + tail);
      RunBare(next, f[1..], tail);
      assert next.field + f[1..] == s.field + f;
    }
  }

  lemma RunWritten(s: Scan, text: string, f: string, tail: string)
    requires !s.quoted && s.field == "" && Writes(text, f) && (tail == [] || tail[0] != '"')
    ensures Run(s, text + tail) == Run(s.(field := f), tail)
  {
    hide Run, PrintField;
    if text == PrintField(f) {
      RunField(s, f, tail);
    } else {
      RunBare(s, f, tail);
      assert "" + f == f;
    }
  }

  lemma {:induction false} RunWrittenRow(s: Scan, texts: seq<string>, row: seq<string>, tail: string)
    requires WritesRow(texts, row) && !s.quoted && s.field == "" && (tail == [] || tail[0] != '"')
    ensures Run(s, Joined(texts) + tail) == Run(s.(row := s.row + row[..|row|-1], field := row[|row|-1]), tail)
    decreases |row|
  {
    hide Run, Writes;
    if |row| == 1 {
      RunWritten(s, texts[0], row[0], tail);
      assert s.row + row[..0] == s.row;
    } else {
      var more := Joined(texts[1..]) + tail;
      assert Joined(texts) + tail == texts[0] + ("," + more);
      RunWritten(s, texts[0], row[0], "," + more);
      RunComma(s.(field := row[0]), more);
      var next := s.(row := s.row + [row[0]]);
      RunWrittenRow(next, texts[1..], row[1..], tail);
      assert next.row + row[1..][..|row|-2] == s.row + row[..|row|-1];
    }
  }

  lemma {:induction false} RunLines(rows: Table, texts: seq<seq<string>>, table: Table, tail: string)
    requires WritesTable(texts, table)
    ensures Run(Scan(rows, [], "", false), Lines(texts) + tail) == Run(Scan(rows + table, [], "", false), tail)
    decreases |table|
  {
    hide Run, WritesRow, Joined;
    if table == [] {
      assert rows + table == rows && Lines(texts) + tail == tail;
    } else {
      assert WritesRow(texts[0], table[0]);
      var more := Lines(texts[1..]) + tail;
      assert Lines(texts) + tail == Joined(texts[0]) + (CRLF + more);
      RunLine(rows, texts[0], table[0], more);
      assert WritesTable(texts[1..], table[1..]);
      RunLines(rows + [table[0]], texts[1..], table[1..], tail);
      assert rows + [table[0]] + table[1..] == rows + table;
    }
  }

  lemma RunLine(rows: Table, texts: seq<string>, row: seq<string>, more: string)
    requires WritesRow(texts, row)
    ensures Run(Scan(rows, [], "", false), Joined(texts) + (CRLF + more))
            == Run(Scan(rows + [row], [], "", false), more)
  {
    hide Run, Joined, Writes;
    var s := Scan(rows, [], "", false);
    RunWrittenRow(s, texts, row, CRLF + more);
    assert [] + row[..|row|-1] == row[..|row|-1];
    RunEnd(s.(row := row[..|row|-1], field := row[|row|-1]), row, CRLF, more);
  }

  /** However its fields are written, a table is read back exactly. */
  lemma EverySpellingIsRead(texts: seq<seq<string>>, table: Table)
    requires WritesTable(texts, table)
    ensures Run(START, Lines(texts)) == Some(table)
  {
    hide WritesTable, Lines;
    RunLines([], texts, table, "");
    assert Lines(texts) + "" == Lines(texts) && [] + table == table;
  }

  /** So is one whose last row is not ended, but that row loses a final CR, and is not seen when it is a single
      empty field. */
  lemma UnendedRowIsRead(texts: seq<seq<string>>, table: Table, last: seq<string>, row: seq<string>)
    requires WritesTable(texts, table) && WritesRow(last, row)
    ensures Run(START, Lines(texts) + Joined(last))
            == Some(if row == [""] then table else table + [row[..|row|-1] + [StripCr(row[|row|-1])]])
  {
    hide WritesTable, Lines, Joined, Writes;
    RunLines([], texts, table, Joined(last));
    assert [] + table == table;
    var s := Scan(table, [], "", false);
    RunWrittenRow(s, last, row, "");
    assert Joined(last) + "" == Joined(last) && [] + row[..|row|-1] == row[..|row|-1];
    if row[..|row|-1] == [] { assert |row| == 1 && row == [row[0]]; }
  }

  /** A quote left open is always an error. */
  lemma {:induction false} OpenQuoteIsRefused(s: Scan, f: string)
    requires s.quoted && forall i :: 0 <= i < |f| ==> f[i] != '"'
    ensures Run(s, f) == None
    decreases |f|
  {
    if f != [] { OpenQuoteIsRefused(s.(field := s.field + [f[0]]), f[1..]); }
  }

  // ----- Investment positions -----

  datatype Position = Position(accountId: string, customerReference: string, productCode: string, currency: string,
                               openedOn: string, businessDate: string, valueDate: string, balance: string)

  const HEADER: seq<string> := ["account_id", "customer_id", "product_code", "currency", "opened_on", "business_date",
                                "value_date", "balance"]

  predicate IsHexOrDash(c: char) { '0' <= c <= '9' || 'a' <= c <= 'f' || 'A' <= c <= 'F' || c == '-' }

  predicate IsReferenceChar(c: char) {
    'A' <= c <= 'Z' || 'a' <= c <= 'z' || '0' <= c <= '9' || c == '.' || c == '_' || c == '-'
  }

  predicate ValidPosition(p: Position) {
    && |p.accountId| == 36 && (forall c <- p.accountId :: IsHexOrDash(c))
    && 1 <= |p.customerReference| <= 128 && (forall c <- p.customerReference :: IsReferenceChar(c))
    && p.productCode != "" && p.currency != ""
    && IsDateText(p.openedOn) && IsDateText(p.businessDate) && IsDateText(p.valueDate)
    && M.Parse(p.balance, p.currency, 12).Ok?
  }

  function FieldsOf(p: Position): seq<string> {
    [p.accountId, p.customerReference, p.productCode, p.currency, p.openedOn, p.businessDate, p.valueDate, p.balance]
  }

  function PositionOf(record: seq<string>): Option<Position> {
    if |record| != |HEADER| then None else
      var p := Position(record[0], record[1], record[2], record[3], record[4], record[5], record[6], record[7]);
      if ValidPosition(p) then Some(p) else None
  }

  /** Blank lines are skipped; the first refused record refuses the file. */
  function PositionsOf(records: Table): Option<seq<Position>> {
    if records == [] then Some([])
    else if records[0] == [""] then PositionsOf(records[1..])
    else
      match PositionOf(records[0])
      case None => None
      case Some(p) => (match PositionsOf(records[1..]) case None => None case Some(ps) => Some([p] + ps))
  }

  const BOM: char := 0xFEFF as char

  function ParsePositions(csv: string): Option<seq<Position>> {
    var text := if csv != [] && csv[0] == BOM then csv[1..] else csv;
    match Run(START, text)
    case None => None
    case Some(rows) => if rows == [] || Joined(rows[0]) != Joined(HEADER) then None else PositionsOf(rows[1..])
  }

  function TableOf(positions: seq<Position>): (r: Table)
    ensures |r| == |positions|
    ensures NonEmptyRows(r)
  {
    if positions == [] then [] else [FieldsOf(positions[0])] + TableOf(positions[1..])
  }

  lemma {:induction false} PositionsOfTable(positions: seq<Position>)
    requires forall p <- positions :: ValidPosition(p)
    ensures PositionsOf(TableOf(positions)) == Some(positions)
  {
    hide ValidPosition;
    if positions != [] {
      assert positions[0] in positions && forall p <- positions[1..] :: p in positions;
      assert FieldsOf(positions[0]) != [""] by { assert |FieldsOf(positions[0])| != |[""]|; }
      assert TableOf(positions)[1..] == TableOf(positions[1..]);
      PositionsOfTable(positions[1..]);
      assert [positions[0]] + positions[1..] == positions;
    }
  }

  lemma PrintStartsQuoted(table: Table)
    requires NonEmptyRows(table) && table != []
    ensures Print(table, CRLF) != [] && Print(table, CRLF)[0] == '"'
  {
    assert PrintRow(table[0])[0] == '"';
  }

  /** A printed file of valid positions is read back as those positions, with or without a byte order mark. */
  lemma PositionsRoundTrip(positions: seq<Position>, mark: string)
    requires (forall p <- positions :: ValidPosition(p)) && (mark == "" || mark == [BOM])
    ensures ParsePositions(mark + Print([HEADER] + TableOf(positions), CRLF)) == Some(positions)
  {
    hide ValidPosition, Joined, Run, Print;
    var table := [HEADER] + TableOf(positions);
    RoundTrip(table);
    PositionsOfTable(positions);
    PrintStartsQuoted(table);
    var text := Print(table, CRLF);
    assert mark == [BOM] ==> (mark + text)[1..] == text;
    assert "" + text == text;
    assert table[1..] == TableOf(positions);
  }

  // ----- Which files are accepted -----

  /** The records that are not blank lines. */
  function Kept(records: Table): Table {
    if records == [] then [] else (if records[0] == [""] then [] else [records[0]]) + Kept(records[1..])
  }

  predicate IsCode(text: string, allowed: char -> bool) { text != "" && forall c <- text :: allowed(c) }

  /** Eight columns, each of its form: account, customer, product, currency, three dates, balance. */
  predicate IsRecord(r: seq<string>) {
    && |r| == 8
    && |r[0]| == 36 && IsCode(r[0], c => '0' <= c <= '9' || 'a' <= c <= 'f' || 'A' <= c <= 'F' || c == '-')
    && |r[1]| <= 128
    && IsCode(r[1], c => 'A' <= c <= 'Z' || 'a' <= c <= 'z' || '0' <= c <= '9' || c == '.' || c == '_' || c == '-')
    && r[2] != "" && |r[3]| == 3 && IsCode(r[3], c => 'A' <= c <= 'Z')
    && IsDateText(r[4]) && IsDateText(r[5]) && IsDateText(r[6])
    && D.MatchDecimal(r[7]).Some? && |D.MatchDecimal(r[7]).value.fraction| <= 12
  }

  lemma RecordIsPosition(r: seq<string>)
    ensures PositionOf(r).Some? <==> IsRecord(r)
    ensures PositionOf(r).Some? ==> FieldsOf(PositionOf(r).value) == r
  {
    hide IsDateText, D.MatchDecimal;
    if |r| == 8 {
      AccountForm(r[0]);
      CustomerForm(r[1]);
      BalanceForm(r[7], r[3]);
      if PositionOf(r).Some? { assert FieldsOf(PositionOf(r).value) == r; }
    }
  }

  lemma AccountForm(text: string)
    ensures |text| == 36 ==>
              ((forall c <- text :: IsHexOrDash(c))
               <==> IsCode(text, c => '0' <= c <= '9' || 'a' <= c <= 'f' || 'A' <= c <= 'F' || c == '-'))
  {}

  lemma CustomerForm(text: string)
    ensures (text != "" && forall c <- text :: IsReferenceChar(c))
            <==> IsCode(text, c => 'A' <= c <= 'Z' || 'a' <= c <= 'z' || '0' <= c <= '9' || c == '.' || c == '_'
                                   || c == '-')
  {}

  lemma BalanceForm(balance: string, currency: string)
    ensures M.Parse(balance, currency, 12).Ok?
            <==> && |currency| == 3 && IsCode(currency, c => 'A' <= c <= 'Z')
                 && D.MatchDecimal(balance).Some? && |D.MatchDecimal(balance).value.fraction| <= 12
  {
    hide D.MatchDecimal;
    assert |currency| == 3 && IsCode(currency, c => 'A' <= c <= 'Z') ==>
      forall i :: 0 <= i < 3 ==> currency[i] in currency;
  }

  lemma {:induction false} PositionsOfRecords(records: Table)
    ensures PositionsOf(records).Some? <==> forall r <- Kept(records) :: IsRecord(r)
    ensures PositionsOf(records).Some? ==> TableOf(PositionsOf(records).value) == Kept(records)
  {
    hide IsRecord, PositionOf, FieldsOf;
    if records != [] {
      PositionsOfRecords(records[1..]);
      if records[0] != [""] {
        RecordIsPosition(records[0]);
        assert Kept(records)[0] == records[0] && Kept(records)[1..] == Kept(records[1..]);
        assert forall r :: r in Kept(records) <==> r == records[0] || r in Kept(records[1..]);
        if PositionsOf(records).Some? {
          assert PositionsOf(records).value[1..] == PositionsOf(records[1..]).value;
        }
      }
    }
  }

  function WithoutMark(csv: string): string { if csv != [] && csv[0] == 0xFEFF as char then csv[1..] else csv }

  /** A file is accepted exactly when it can be read as a table, its first record joins to the header, and every other
      record that is not a blank line has eight columns of the right form. The positions are those records, in their
      order and column by column. */
  lemma AcceptsExactly(csv: string)
    ensures ParsePositions(csv).Some?
            <==> && Run(START, WithoutMark(csv)).Some? && Run(START, WithoutMark(csv)).value != []
                 && Joined(Run(START, WithoutMark(csv)).value[0])
                    == Joined(["account_id", "customer_id", "product_code", "currency", "opened_on", "business_date",
                               "value_date", "balance"])
                 && forall r <- Kept(Run(START, WithoutMark(csv)).value[1..]) :: IsRecord(r)
    ensures ParsePositions(csv).Some? ==>
              Run(START, WithoutMark(csv)).Some? && Run(START, WithoutMark(csv)).value != []
              && TableOf(ParsePositions(csv).value) == Kept(Run(START, WithoutMark(csv)).value[1..])
  {
    hide Run, IsRecord, PositionsOf, Joined;
    var rows := Run(START, WithoutMark(csv));
    if rows.Some? && rows.value != [] { PositionsOfRecords(rows.value[1..]); }
  }
}
