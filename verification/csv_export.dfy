/**
 The CSV printer of src/data-pipeline/export.service.ts, and a parser for its output that follows rules 5 to 7
 of section 2 of RFC 4180 with LF as the record separator.

 Dates, numbers and JSON values arrive here as the strings they are printed as.
 */
module CsvExport {
  import opened Common

  predicate Clean(field: string) {
    ',' !in field && '"' !in field && '\n' !in field
  }

  /** field.replace(/"/g, '""') */
  function DoubleQuotes(field: string): string {
    if field == "" then ""
    else (if field[0] == '"' then "\"\"" else [field[0]]) + DoubleQuotes(field[1..])
  }

  function EscapeCsvField(field: string): string {
    if Clean(field) then field else "\"" + DoubleQuotes(field) + "\""
  }

  /** A column value that goes through escapeCsvField, or one that is pushed as it is. */
  datatype Cell = Raw(value: string) | Escaped(value: string)

  function Printed(c: Cell): string {
    match c
    case Raw(v) => v
    case Escaped(v) => EscapeCsvField(v)
  }

  function Join(parts: seq<string>, separator: char): string {
    if parts == [] then ""
    else if |parts| == 1 then parts[0]
    else parts[0] + [separator] + Join(parts[1..], separator)
  }

  function PrintRow(row: seq<Cell>): string {
    Join(seq(|row|, i requires 0 <= i < |row| => Printed(row[i])), ',')
  }

  function Lines(table: seq<seq<Cell>>): seq<string> {
    seq(|table|, i requires 0 <= i < |table| => PrintRow(table[i]))
  }

  function Print(table: seq<seq<Cell>>): string {
    Join(Lines(table), '\n')
  }

  function RowValues(row: seq<Cell>): seq<string> {
    seq(|row|, i requires 0 <= i < |row| => row[i].value)
  }

  function Values(table: seq<seq<Cell>>): seq<seq<string>> {
    seq(|table|, i requires 0 <= i < |table| => RowValues(table[i]))
  }

  // ----- The parser

  /** At the start of a field, inside an unquoted or a quoted one, or just after a quote within a quoted one. */
  datatype Mode = FieldStart | Plain | Quoted | QuoteSeen

  /** Parses text, given the mode, the field so far, the fields of this record so far and the records so far. */
  function ParseFrom(text: string, mode: Mode, field: string, row: seq<string>, rows: seq<seq<string>>)
    : Option<seq<seq<string>>>
    decreases |text|
  {
    if text == "" then
      if mode == Quoted then None else Some(rows + [row + [field]])
    else
      var c, rest := text[0], text[1..];
      if mode == Quoted then
        if c == '"' then ParseFrom(rest, QuoteSeen, field, row, rows)
        else ParseFrom(rest, Quoted, field + [c], row, rows)
      else if c == ',' then ParseFrom(rest, FieldStart, "", row + [field], rows)
      else if c == '\n' then ParseFrom(rest, FieldStart, "", [], rows + [row + [field]])
      else if c == '"' then
        if mode == FieldStart then ParseFrom(rest, Quoted, "", row, rows)
        else if mode == QuoteSeen then ParseFrom(rest, Quoted, field + [c], row, rows)
        else None
      else if mode == QuoteSeen then None
      else ParseFrom(rest, Plain, field + [c], row, rows)
  }

  function Parse(text: string): Option<seq<seq<string>>> {
    ParseFrom(text, FieldStart, "", [], [])
  }

  // ----- Parsing what was printed

  /** After a field the text ends or a separator follows. */
  predicate FieldEnds(rest: string) {
    rest == "" || rest[0] == ',' || rest[0] == '\n'
  }

  lemma {:induction false} PlainFieldParses(f: string, rest: string, mode: Mode, field: string, row: seq<string>,
                                            rows: seq<seq<string>>)
    requires Clean(f) && FieldEnds(rest) && (mode == Plain || mode == FieldStart)
    ensures ParseFrom(f + rest, mode, field, row, rows) == ParseFrom(rest, Plain, field + f, row, rows)
    decreases |f|
  {
    if f == "" {
      assert f + rest == rest && field + f == field;
    } else {
      assert (f + rest)[0] == f[0] && (f + rest)[1..] == f[1..] + rest;
      PlainFieldParses(f[1..], rest, Plain, field + [f[0]], row, rows);
      assert field + [f[0]] + f[1..] == field + f;
    }
  }

  lemma {:induction false} QuotedFieldParses(f: string, rest: string, field: string, row: seq<string>,
                                             rows: seq<seq<string>>)
    requires FieldEnds(rest)
    ensures ParseFrom(DoubleQuotes(f) + "\"" + rest, Quoted, field, row, rows) ==
            ParseFrom(rest, QuoteSeen, field + f, row, rows)
    decreases |f|
  {
    var text := DoubleQuotes(f) + "\"" + rest;
    if f == "" {
      assert text[0] == '"' && text[1..] == rest;
      assert field + f == field;
    } else {
      var tail := DoubleQuotes(f[1..]) + "\"" + rest;
      QuotedFieldParses(f[1..], rest, field + [f[0]], row, rows);
      assert field + [f[0]] + f[1..] == field + f;
      if f[0] == '"' {
        assert text == "\"\"" + tail;
        assert text[0] == '"' && text[1..] == "\"" + tail;
        assert text[1..][0] == '"' && text[1..][1..] == tail;
      } else {
        assert text == [f[0]] + tail;
        assert text[0] == f[0] && text[1..] == tail;
      }
    }
  }

  predicate CleanCell(c: Cell) {
    c.Raw? ==> Clean(c.value)
  }

  predicate CleanRow(row: seq<Cell>) {
    forall i :: 0 <= i < |row| ==> CleanCell(row[i])
  }

  predicate CleanTable(table: seq<seq<Cell>>) {
    forall i :: 0 <= i < |table| ==> CleanRow(table[i])
  }

  /** Every printed row has a column, and there is a header. */
  predicate Rectangular(table: seq<seq<Cell>>) {
    table != [] && forall i :: 0 <= i < |table| ==> table[i] != []
  }

  lemma SeparatorEndsEither(rest: string, field: string, row: seq<string>, rows: seq<seq<string>>)
    requires FieldEnds(rest)
    ensures ParseFrom(rest, QuoteSeen, field, row, rows) == ParseFrom(rest, Plain, field, row, rows)
  {
  }

  lemma QuotedCellParses(v: string, rest: string, row: seq<string>, rows: seq<seq<string>>)
    requires FieldEnds(rest)
    ensures ParseFrom("\"" + DoubleQuotes(v) + "\"" + rest, FieldStart, "", row, rows) ==
            ParseFrom(rest, Plain, v, row, rows)
  {
    var tail := DoubleQuotes(v) + "\"" + rest;
    var text := "\"" + DoubleQuotes(v) + "\"" + rest;
    assert text == "\"" + tail;
    assert text[0] == '"' && text[1..] == tail;
    QuotedFieldParses(v, rest, "", row, rows);
    assert "" + v == v;
    SeparatorEndsEither(rest, v, row, rows);
  }

  /** A printed cell, followed by a separator or the end, parses to its value. */
  lemma CellParses(c: Cell, rest: string, row: seq<string>, rows: seq<seq<string>>)
    requires CleanCell(c) && FieldEnds(rest)
    ensures ParseFrom(Printed(c) + rest, FieldStart, "", row, rows) == ParseFrom(rest, Plain, c.value, row, rows)
  {
    var v := c.value;
    if Clean(v) {
      assert Printed(c) == v && "" + v == v;
      PlainFieldParses(v, rest, FieldStart, "", row, rows);
    } else {
      assert Printed(c) == "\"" + DoubleQuotes(v) + "\"";
      QuotedCellParses(v, rest, row, rows);
    }
  }

  lemma CommaStep(v: string, rest: string, row: seq<string>, rows: seq<seq<string>>)
    ensures ParseFrom("," + rest, Plain, v, row, rows) == ParseFrom(rest, FieldStart, "", row + [v], rows)
  {
    assert ("," + rest)[0] == ',' && ("," + rest)[1..] == rest;
  }

  /** What is parsed when a record ends: the text ends, or the next record starts. */
  function AfterRecord(rest: string, record: seq<string>, rows: seq<seq<string>>): Option<seq<seq<string>>> {
    if rest == "" then Some(rows + [record]) else ParseFrom(rest[1..], FieldStart, "", [], rows + [record])
  }

  predicate RecordEnds(rest: string) {
    rest == "" || rest[0] == '\n'
  }

  lemma LastCellParses(c: Cell, rest: string, row: seq<string>, rows: seq<seq<string>>)
    requires CleanCell(c) && RecordEnds(rest)
    ensures ParseFrom(Printed(c) + rest, FieldStart, "", row, rows) == AfterRecord(rest, row + [c.value], rows)
  {
    CellParses(c, rest, row, rows);
  }

  /** The first of several cells is parsed, and its separator. */
  lemma FirstCellParses(cells: seq<Cell>, rest: string, row: seq<string>, rows: seq<seq<string>>)
    requires |cells| > 1 && CleanCell(cells[0])
    ensures ParseFrom(PrintRow(cells) + rest, FieldStart, "", row, rows) ==
            ParseFrom(PrintRow(cells[1..]) + rest, FieldStart, "", row + [cells[0].value], rows)
  {
    var c, tail := cells[0], PrintRow(cells[1..]) + rest;
    PrintRowStep(cells);
    assert PrintRow(cells) + rest == Printed(c) + ("," + tail);
    CellParses(c, "," + tail, row, rows);
    CommaStep(c.value, tail, row, rows);
  }

  lemma ValuesStep(cells: seq<Cell>, row: seq<string>)
    requires cells != []
    ensures row + [cells[0].value] + RowValues(cells[1..]) == row + RowValues(cells)
  {
    assert RowValues(cells) == [cells[0].value] + RowValues(cells[1..]);
  }

  lemma {:induction false} RowParses(cells: seq<Cell>, rest: string, row: seq<string>, rows: seq<seq<string>>)
    requires cells != [] && CleanRow(cells) && RecordEnds(rest)
    ensures ParseFrom(PrintRow(cells) + rest, FieldStart, "", row, rows) == AfterRecord(rest, row + RowValues(cells), rows)
    decreases |cells|
  {
    var c := cells[0];
    ValuesStep(cells, row);
    if |cells| == 1 {
      assert PrintRow(cells) == Printed(c) && RowValues(cells) == [c.value];
      LastCellParses(c, rest, row, rows);
    } else {
      FirstCellParses(cells, rest, row, rows);
      RowParses(cells[1..], rest, row + [c.value], rows);
    }
  }

  lemma PrintRowStep(cells: seq<Cell>)
    requires |cells| > 1
    ensures PrintRow(cells) == Printed(cells[0]) + "," + PrintRow(cells[1..])
  {
    var parts := seq(|cells|, i requires 0 <= i < |cells| => Printed(cells[i]));
    var more := cells[1..];
    assert parts[1..] == seq(|more|, i requires 0 <= i < |more| => Printed(more[i]));
  }

  lemma PrintStep(table: seq<seq<Cell>>)
    requires |table| > 1
    ensures Print(table) == PrintRow(table[0]) + "\n" + Print(table[1..])
  {
    assert Lines(table)[1..] == Lines(table[1..]);
  }

  lemma {:induction false} TableParses(table: seq<seq<Cell>>, rows: seq<seq<string>>)
    requires Rectangular(table) && CleanTable(table)
    ensures ParseFrom(Print(table), FieldStart, "", [], rows) == Some(rows + Values(table))
    decreases |table|
  {
    var first := table[0];
    assert [] + RowValues(first) == RowValues(first);
    if |table| == 1 {
      assert Print(table) == PrintRow(first) + "";
      RowParses(first, "", [], rows);
      assert PrintRow(first) + "" == PrintRow(first);
      assert Values(table) == [RowValues(first)];
    } else {
      var rest := "\n" + Print(table[1..]);
      PrintStep(table);
      assert Print(table) == PrintRow(first) + rest;
      RowParses(first, rest, [], rows);
      assert rest[1..] == Print(table[1..]);
      TableParses(table[1..], rows + [RowValues(first)]);
      assert rows + [RowValues(first)] + Values(table[1..]) == rows + Values(table);
    }
  }

  // ----- A parsed text is never shorter than the escaped print of its values

  function FieldLength(field: string): nat {
    |EscapeCsvField(field)|
  }

  /** Fields with a separator after each. */
  function FieldsLength(row: seq<string>): nat {
    if row == [] then 0 else FieldsLength(row[..|row| - 1]) + FieldLength(row[|row| - 1]) + 1
  }

  /** Records with a line feed after each; in a record the separators stand between the fields only. */
  function RecordsLength(rows: seq<seq<string>>): int {
    if rows == [] then 0 else RecordsLength(rows[..|rows| - 1]) + FieldsLength(rows[|rows| - 1])
  }

  lemma {:induction false} DoubleQuotesGrows(f: string, c: char)
    ensures |DoubleQuotes(f + [c])| == |DoubleQuotes(f)| + (if c == '"' then 2 else 1)
    ensures |DoubleQuotes(f)| >= |f|
    decreases |f|
  {
    if f == "" {
      assert f + [c] == [c];
      assert DoubleQuotes([c][1..]) == "";
    } else {
      assert (f + [c])[1..] == f[1..] + [c];
      DoubleQuotesGrows(f[1..], c);
    }
  }

  /** What the canonical print of the current field can have cost so far. */
  function Spent(mode: Mode, field: string): nat {
    match mode
    case FieldStart => 0
    case Plain => |field|
    case Quoted => 1 + |DoubleQuotes(field)|
    case QuoteSeen => 2 + |DoubleQuotes(field)|
  }

  predicate Consistent(mode: Mode, field: string) {
    (mode == FieldStart ==> field == "") && (mode == Plain ==> Clean(field))
  }

  lemma FieldWithinSpent(mode: Mode, field: string)
    requires Consistent(mode, field) && mode != Quoted
    ensures FieldLength(field) <= Spent(mode, field)
  {
    DoubleQuotesGrows(field, 'x');
  }

  /** A field that ends costs what was spent on it and its separator. */
  lemma EndOfField(mode: Mode, field: string, row: seq<string>, rows: seq<seq<string>>)
    requires Consistent(mode, field) && mode != Quoted
    ensures FieldsLength(row + [field]) <= FieldsLength(row) + Spent(mode, field) + 1
    ensures RecordsLength(rows + [row + [field]]) <= RecordsLength(rows) + FieldsLength(row) + Spent(mode, field) + 1
  {
    FieldWithinSpent(mode, field);
    AppendLengths(rows, row, field);
    AppendLengths(rows, row + [field], "");
  }

  lemma AppendLengths(rows: seq<seq<string>>, row: seq<string>, field: string)
    ensures FieldsLength(row + [field]) == FieldsLength(row) + FieldLength(field) + 1
    ensures RecordsLength(rows + [row]) == RecordsLength(rows) + FieldsLength(row)
  {
    assert (row + [field])[..|row|] == row;
    assert (rows + [row])[..|rows|] == rows;
  }

  lemma {:induction false} ParsedIsNotShorter(text: string, mode: Mode, field: string, row: seq<string>,
                                              rows: seq<seq<string>>)
    requires Consistent(mode, field)
    ensures var r := ParseFrom(text, mode, field, row, rows);
            r.Some? ==> RecordsLength(r.value) <=
                        RecordsLength(rows) + FieldsLength(row) + Spent(mode, field) + |text| + 1
    decreases |text|, 1
  {
    if mode == Quoted {
      if text != "" {
        QuotedIsNotShorter(text, field, row, rows);
      }
    } else {
      EndOfField(mode, field, row, rows);
      if text != "" {
        var c, rest := text[0], text[1..];
        if c == ',' {
          ParsedIsNotShorter(rest, FieldStart, "", row + [field], rows);
        } else if c == '\n' {
          ParsedIsNotShorter(rest, FieldStart, "", [], rows + [row + [field]]);
        } else if c == '"' {
          if mode == FieldStart {
            ParsedIsNotShorter(rest, Quoted, "", row, rows);
          } else if mode == QuoteSeen {
            DoubleQuotesGrows(field, c);
            ParsedIsNotShorter(rest, Quoted, field + [c], row, rows);
          }
        } else if mode != QuoteSeen {
          ParsedIsNotShorter(rest, Plain, field + [c], row, rows);
        }
      }
    }
  }

  lemma {:induction false} QuotedIsNotShorter(text: string, field: string, row: seq<string>, rows: seq<seq<string>>)
    requires text != ""
    ensures var r := ParseFrom(text, Quoted, field, row, rows);
            r.Some? ==> RecordsLength(r.value) <=
                        RecordsLength(rows) + FieldsLength(row) + Spent(Quoted, field) + |text| + 1
    decreases |text|, 0
  {
    var c, rest := text[0], text[1..];
    if c == '"' {
      ParsedIsNotShorter(rest, QuoteSeen, field, row, rows);
    } else {
      DoubleQuotesGrows(field, c);
      ParsedIsNotShorter(rest, Quoted, field + [c], row, rows);
    }
  }

  /** How much shorter the print of a cell is than its escaped print. */
  function CellDeficit(c: Cell): int {
    FieldLength(c.value) - |Printed(c)|
  }

  lemma CellDeficitBounds(c: Cell)
    ensures CellDeficit(c) >= 0
    ensures CellDeficit(c) == 0 <==> CleanCell(c)
  {
    DoubleQuotesGrows(c.value, 'x');
  }

  function Sum(xs: seq<int>): int {
    if xs == [] then 0 else Sum(xs[..|xs| - 1]) + xs[|xs| - 1]
  }

  lemma SumAppend(xs: seq<int>, x: int)
    ensures Sum(xs + [x]) == Sum(xs) + x
  {
    assert (xs + [x])[..|xs|] == xs;
  }

  ghost predicate NonNegative(xs: seq<int>) {
    forall i :: 0 <= i < |xs| ==> xs[i] >= 0
  }

  lemma {:induction false} SumBounds(xs: seq<int>)
    requires NonNegative(xs)
    ensures Sum(xs) >= 0
    ensures forall i :: 0 <= i < |xs| ==> xs[i] <= Sum(xs)
    decreases |xs|
  {
    if xs != [] {
      SumBounds(xs[..|xs| - 1]);
    }
  }

  function Deficits(row: seq<Cell>): seq<int> {
    seq(|row|, i requires 0 <= i < |row| => CellDeficit(row[i]))
  }

  function Deficit(row: seq<Cell>): int {
    Sum(Deficits(row))
  }

  function RowDeficits(table: seq<seq<Cell>>): seq<int> {
    seq(|table|, i requires 0 <= i < |table| => Deficit(table[i]))
  }

  function TableDeficit(table: seq<seq<Cell>>): int {
    Sum(RowDeficits(table))
  }

  lemma DeficitAppend(row: seq<Cell>, c: Cell)
    ensures Deficit(row + [c]) == Deficit(row) + CellDeficit(c)
  {
    assert Deficits(row + [c]) == Deficits(row) + [CellDeficit(c)];
    SumAppend(Deficits(row), CellDeficit(c));
  }

  lemma TableDeficitAppend(table: seq<seq<Cell>>, row: seq<Cell>)
    ensures TableDeficit(table + [row]) == TableDeficit(table) + Deficit(row)
  {
    assert RowDeficits(table + [row]) == RowDeficits(table) + [Deficit(row)];
    SumAppend(RowDeficits(table), Deficit(row));
  }

  lemma {:induction false} JoinAppend(parts: seq<string>, last: string, separator: char)
    requires parts != []
    ensures Join(parts + [last], separator) == Join(parts, separator) + [separator] + last
    decreases |parts|
  {
    if |parts| > 1 {
      assert (parts + [last])[1..] == parts[1..] + [last];
      JoinAppend(parts[1..], last, separator);
    }
  }

  lemma RowAppend(row: seq<Cell>, c: Cell)
    ensures |PrintRow(row + [c])| == (if row == [] then 0 else |PrintRow(row)| + 1) + |Printed(c)|
    ensures RowValues(row + [c]) == RowValues(row) + [c.value]
  {
    var all := row + [c];
    var parts := seq(|row|, i requires 0 <= i < |row| => Printed(row[i]));
    var allParts := seq(|all|, i requires 0 <= i < |all| => Printed(all[i]));
    assert allParts == parts + [Printed(c)];
    if row != [] {
      JoinAppend(parts, Printed(c), ',');
    }
  }

  lemma {:induction false} RowLength(row: seq<Cell>)
    requires row != []
    ensures |PrintRow(row)| + 1 + Deficit(row) == FieldsLength(RowValues(row))
    decreases |row|
  {
    var init, c := row[..|row| - 1], row[|row| - 1];
    assert row == init + [c];
    RowAppend(init, c);
    DeficitAppend(init, c);
    AppendLengths([], RowValues(init), c.value);
    if init != [] {
      RowLength(init);
    }
  }

  lemma TableAppend(table: seq<seq<Cell>>, row: seq<Cell>)
    ensures |Print(table + [row])| == (if table == [] then 0 else |Print(table)| + 1) + |PrintRow(row)|
    ensures Values(table + [row]) == Values(table) + [RowValues(row)]
  {
    var all := table + [row];
    assert all[..|all| - 1] == table;
    assert Lines(all) == Lines(table) + [PrintRow(row)];
    if table != [] {
      JoinAppend(Lines(table), PrintRow(row), '\n');
    }
  }

  lemma {:induction false} TableLength(table: seq<seq<Cell>>)
    requires Rectangular(table)
    ensures |Print(table)| + 1 + TableDeficit(table) == RecordsLength(Values(table))
    decreases |table|
  {
    var init, row := table[..|table| - 1], table[|table| - 1];
    assert table == init + [row];
    RowLength(row);
    TableAppend(init, row);
    TableDeficitAppend(init, row);
    AppendLengths(Values(init), RowValues(row), "");
    if init != [] {
      TableLength(init);
    }
  }

  lemma DeficitBounds(row: seq<Cell>)
    ensures Deficit(row) >= 0
    ensures Deficit(row) == 0 ==> CleanRow(row)
  {
    var ds := Deficits(row);
    forall i | 0 <= i < |row| ensures ds[i] >= 0 && (ds[i] == 0 ==> CleanCell(row[i])) {
      CellDeficitBounds(row[i]);
    }
    SumBounds(ds);
  }

  lemma TableDeficitBounds(table: seq<seq<Cell>>)
    ensures TableDeficit(table) >= 0
    ensures TableDeficit(table) == 0 ==> CleanTable(table)
  {
    var ds := RowDeficits(table);
    forall i | 0 <= i < |table| ensures ds[i] >= 0 && (ds[i] == 0 ==> CleanRow(table[i])) {
      DeficitBounds(table[i]);
    }
    SumBounds(ds);
  }

  /** The export can be read back exactly when no column that is not escaped contains a comma, a quote or a
      line feed.  The "only if" holds whatever the dirty columns contain: they make the text too short. */
  lemma RoundTripIff(table: seq<seq<Cell>>)
    requires Rectangular(table)
    ensures Parse(Print(table)) == Some(Values(table)) <==> CleanTable(table)
  {
    if CleanTable(table) {
      TableParses(table, []);
      assert [] + Values(table) == Values(table);
    }
    if Parse(Print(table)) == Some(Values(table)) {
      ParsedIsNotShorter(Print(table), FieldStart, "", [], []);
      TableLength(table);
      TableDeficitBounds(table);
    }
  }

  // ----- The three exports

  function OrEmpty(o: Option<string>): (text: string)
    ensures o == None ==> text == ""
    ensures o != None ==> o == Some(text)
  {
    if o.Some? then o.value else ""
  }

  function Decimal(n: nat): string {
    if n < 10 then ["0123456789"[n]] else Decimal(n / 10) + ["0123456789"[n % 10]]
  }

  function Digit(c: char): nat {
    if '0' <= c <= '9' then c as int - '0' as int else 0
  }

  /** The number that decimal digits stand for. */
  function Number(digits: string): nat {
    if digits == "" then 0 else 10 * Number(digits[..|digits| - 1]) + Digit(digits[|digits| - 1])
  }

  /** A printed number consists of digits, without leading zeros, that stand for it. */
  lemma {:induction false} DecimalReadsBack(n: nat)
    ensures Number(Decimal(n)) == n
    ensures forall i :: 0 <= i < |Decimal(n)| ==> '0' <= Decimal(n)[i] <= '9'
    ensures |Decimal(n)| > 0 && (n > 0 ==> Decimal(n)[0] != '0')
    decreases n
  {
    var s := Decimal(n);
    DigitPrinted(n % 10);
    if n < 10 {
      assert s[..0] == "";
    } else {
      DecimalReadsBack(n / 10);
      assert s[..|s| - 1] == Decimal(n / 10);
    }
  }

  lemma DigitPrinted(d: nat)
    requires d < 10
    ensures Digit("0123456789"[d]) == d && '0' <= "0123456789"[d] <= '9' && (d > 0 ==> "0123456789"[d] != '0')
  {
  }

  lemma {:induction false} DecimalClean(n: nat)
    ensures Clean(Decimal(n))
    decreases n
  {
    if n >= 10 {
      DecimalClean(n / 10);
    }
  }

  datatype Notification = Notification(
    id: string, userId: string, tenantId: Option<string>, channel: string, kind: string, status: string,
    priority: string, subject: Option<string>, scheduledFor: Option<string>, sentAt: Option<string>,
    deliveredAt: Option<string>, failedAt: Option<string>, retryCount: nat, errorMessage: Option<string>,
    createdAt: string, updatedAt: string)

  datatype EventRecord = EventRecord(
    id: string, kind: string, userId: string, status: string, payloadJson: string, processedAt: Option<string>,
    createdAt: string, updatedAt: string)

  datatype AuditLog = AuditLog(
    id: string, userId: string, userEmail: string, action: string, resourceType: Option<string>,
    resourceId: Option<string>, detailsJson: string, ipAddress: Option<string>, userAgent: Option<string>,
    createdAt: string)

  const NOTIFICATION_HEADERS: seq<string> := [
    "id", "userId", "tenantId", "channel", "type", "status", "priority", "subject", "scheduledFor", "sentAt",
    "deliveredAt", "failedAt", "retryCount", "errorMessage", "createdAt", "updatedAt"]

  const EVENT_HEADERS: seq<string> := [
    "id", "type", "userId", "status", "payload", "processedAt", "createdAt", "updatedAt"]

  const AUDIT_HEADERS: seq<string> := [
    "id", "userId", "userEmail", "action", "resourceType", "resourceId", "details", "ipAddress", "userAgent", "createdAt"]

  function NotificationRow(n: Notification): seq<Cell> {
    [Raw(n.id), Raw(n.userId), Raw(OrEmpty(n.tenantId)), Raw(n.channel), Raw(n.kind), Raw(n.status), Raw(n.priority),
     Escaped(OrEmpty(n.subject)), Raw(OrEmpty(n.scheduledFor)), Raw(OrEmpty(n.sentAt)), Raw(OrEmpty(n.deliveredAt)),
     Raw(OrEmpty(n.failedAt)), Raw(Decimal(n.retryCount)), Escaped(OrEmpty(n.errorMessage)), Raw(n.createdAt),
     Raw(n.updatedAt)]
  }

  function EventRow(e: EventRecord): seq<Cell> {
    [Raw(e.id), Raw(e.kind), Raw(e.userId), Raw(e.status), Escaped(e.payloadJson), Raw(OrEmpty(e.processedAt)),
     Raw(e.createdAt), Raw(e.updatedAt)]
  }

  function AuditRow(a: AuditLog): seq<Cell> {
    [Raw(a.id), Raw(a.userId), Raw(a.userEmail), Raw(a.action), Raw(OrEmpty(a.resourceType)), Raw(OrEmpty(a.resourceId)),
     Escaped(a.detailsJson), Raw(OrEmpty(a.ipAddress)), Escaped(OrEmpty(a.userAgent)), Raw(a.createdAt)]
  }

  function RawRow(values: seq<string>): seq<Cell> {
    seq(|values|, i requires 0 <= i < |values| => Raw(values[i]))
  }

  function Table(headers: seq<string>, rows: seq<seq<Cell>>): seq<seq<Cell>> {
    [RawRow(headers)] + rows
  }

  /** The header line, then one line per row, joined by line feeds. */
  method BuildCsv(headers: seq<string>, rows: seq<seq<Cell>>) returns (csv: string)
    ensures csv == Print(Table(headers, rows))
  {
    var csvLines := [PrintRow(RawRow(headers))];
    for i := 0 to |rows|
      invariant csvLines == Lines(Table(headers, rows[..i]))
    {
      csvLines := csvLines + [PrintRow(rows[i])];
      assert Table(headers, rows[..i + 1]) == Table(headers, rows[..i]) + [rows[i]];
    }
    assert rows[..|rows|] == rows;
    csv := Join(csvLines, '\n');
  }

  ghost predicate CleanNames(names: seq<string>) {
    forall i :: 0 <= i < |names| ==> Clean(names[i])
  }

  lemma NotificationHeadersClean()
    ensures CleanNames(NOTIFICATION_HEADERS)
  {
    FirstNotificationHeadersClean();
    MoreNotificationHeadersClean();
    LastNotificationHeadersClean();
    assert NOTIFICATION_HEADERS == NOTIFICATION_HEADERS[..8] + NOTIFICATION_HEADERS[8..12] + NOTIFICATION_HEADERS[12..];
  }

  lemma FirstNotificationHeadersClean()
    ensures CleanNames(NOTIFICATION_HEADERS[..8])
  {
  }

  lemma MoreNotificationHeadersClean()
    ensures CleanNames(NOTIFICATION_HEADERS[8..12])
  {
  }

  lemma LastNotificationHeadersClean()
    ensures CleanNames(NOTIFICATION_HEADERS[12..])
  {
  }

  lemma EventHeadersClean()
    ensures CleanNames(EVENT_HEADERS)
  {
  }

  lemma AuditHeadersClean()
    ensures CleanNames(AUDIT_HEADERS)
  {
  }

  /** The columns of a notification that no escaping protects. */
  predicate CleanNotification(n: Notification) {
    Clean(n.id) && Clean(n.userId) && Clean(OrEmpty(n.tenantId)) && Clean(n.channel) && Clean(n.kind) &&
    Clean(n.status) && Clean(n.priority) && Clean(OrEmpty(n.scheduledFor)) && Clean(OrEmpty(n.sentAt)) &&
    Clean(OrEmpty(n.deliveredAt)) && Clean(OrEmpty(n.failedAt)) && Clean(n.createdAt) && Clean(n.updatedAt)
  }

  predicate CleanEvent(e: EventRecord) {
    Clean(e.id) && Clean(e.kind) && Clean(e.userId) && Clean(e.status) && Clean(OrEmpty(e.processedAt)) &&
    Clean(e.createdAt) && Clean(e.updatedAt)
  }

  predicate CleanAuditLog(a: AuditLog) {
    Clean(a.id) && Clean(a.userId) && Clean(a.userEmail) && Clean(a.action) && Clean(OrEmpty(a.resourceType)) &&
    Clean(OrEmpty(a.resourceId)) && Clean(OrEmpty(a.ipAddress)) && Clean(a.createdAt)
  }

  method ExportNotificationsToCSV(notifications: seq<Notification>) returns (csv: string)
    ensures var rows := seq(|notifications|, i requires 0 <= i < |notifications| => NotificationRow(notifications[i]));
            && csv == Print(Table(NOTIFICATION_HEADERS, rows))
            && (Parse(csv) == Some(Values(Table(NOTIFICATION_HEADERS, rows))) <==>
                forall i :: 0 <= i < |notifications| ==> CleanNotification(notifications[i]))
    ensures (forall i :: 0 <= i < |notifications| ==> CleanNotification(notifications[i])) ==>
              var parsed := Parse(csv);
              && parsed.Some? && |parsed.value| == |notifications| + 1
              && parsed.value[0] ==
                ["id", "userId", "tenantId", "channel", "type", "status", "priority", "subject", "scheduledFor",
                 "sentAt", "deliveredAt", "failedAt", "retryCount", "errorMessage", "createdAt", "updatedAt"]
              && forall i :: 0 <= i < |notifications| ==> NotificationFields(notifications[i], parsed.value[i + 1])
  {
    var rows := seq(|notifications|, i requires 0 <= i < |notifications| => NotificationRow(notifications[i]));
    csv := BuildCsv(NOTIFICATION_HEADERS, rows);
    NotificationHeadersClean();
    ExportReadable(NOTIFICATION_HEADERS, rows);
    ExportParsed(NOTIFICATION_HEADERS, rows);
    forall i | 0 <= i < |notifications|
      ensures CleanRow(rows[i]) <==> CleanNotification(notifications[i])
      ensures NotificationFields(notifications[i], RowValues(rows[i]))
    {
      NotificationValues(notifications[i]);
      NotificationRowClean(notifications[i]);
    }
  }

  method ExportEventsToCSV(events: seq<EventRecord>) returns (csv: string)
    ensures var rows := seq(|events|, i requires 0 <= i < |events| => EventRow(events[i]));
            && csv == Print(Table(EVENT_HEADERS, rows))
            && (Parse(csv) == Some(Values(Table(EVENT_HEADERS, rows))) <==>
                forall i :: 0 <= i < |events| ==> CleanEvent(events[i]))
    ensures (forall i :: 0 <= i < |events| ==> CleanEvent(events[i])) ==>
              var parsed := Parse(csv);
              && parsed.Some? && |parsed.value| == |events| + 1
              && parsed.value[0] ==
                ["id", "type", "userId", "status", "payload", "processedAt", "createdAt", "updatedAt"]
              && forall i :: 0 <= i < |events| ==> EventFields(events[i], parsed.value[i + 1])
  {
    var rows := seq(|events|, i requires 0 <= i < |events| => EventRow(events[i]));
    csv := BuildCsv(EVENT_HEADERS, rows);
    EventHeadersClean();
    ExportReadable(EVENT_HEADERS, rows);
    ExportParsed(EVENT_HEADERS, rows);
    forall i | 0 <= i < |events|
      ensures (CleanRow(rows[i]) <==> CleanEvent(events[i])) && EventFields(events[i], RowValues(rows[i]))
    {
      EventValues(events[i]);
      EventRowClean(events[i]);
    }
  }

  method ExportAuditLogsToCSV(logs: seq<AuditLog>) returns (csv: string)
    ensures var rows := seq(|logs|, i requires 0 <= i < |logs| => AuditRow(logs[i]));
            && csv == Print(Table(AUDIT_HEADERS, rows))
            && (Parse(csv) == Some(Values(Table(AUDIT_HEADERS, rows))) <==>
                forall i :: 0 <= i < |logs| ==> CleanAuditLog(logs[i]))
    ensures (forall i :: 0 <= i < |logs| ==> CleanAuditLog(logs[i])) ==>
              var parsed := Parse(csv);
              && parsed.Some? && |parsed.value| == |logs| + 1
              && parsed.value[0] ==
                ["id", "userId", "userEmail", "action", "resourceType", "resourceId", "details", "ipAddress",
                 "userAgent", "createdAt"]
              && forall i :: 0 <= i < |logs| ==> AuditLogFields(logs[i], parsed.value[i + 1])
  {
    var rows := seq(|logs|, i requires 0 <= i < |logs| => AuditRow(logs[i]));
    csv := BuildCsv(AUDIT_HEADERS, rows);
    AuditHeadersClean();
    ExportReadable(AUDIT_HEADERS, rows);
    ExportParsed(AUDIT_HEADERS, rows);
    forall i | 0 <= i < |logs|
      ensures (CleanRow(rows[i]) <==> CleanAuditLog(logs[i])) && AuditLogFields(logs[i], RowValues(rows[i]))
    {
      AuditLogValues(logs[i]);
      AuditRowClean(logs[i]);
    }
  }

  lemma ExportReadable(headers: seq<string>, rows: seq<seq<Cell>>)
    requires headers != [] && CleanNames(headers)
    requires forall i :: 0 <= i < |rows| ==> rows[i] != []
    ensures Parse(Print(Table(headers, rows))) == Some(Values(Table(headers, rows))) <==>
            forall i :: 0 <= i < |rows| ==> CleanRow(rows[i])
  {
    var table := Table(headers, rows);
    assert CleanRow(RawRow(headers));
    assert table[0] == RawRow(headers) && forall i :: 0 <= i < |rows| ==> table[i + 1] == rows[i];
    RoundTripIff(table);
    assert CleanTable(table) <==> forall i :: 0 <= i < |rows| ==> CleanRow(rows[i]) by {
      if CleanTable(table) {
        forall i | 0 <= i < |rows| ensures CleanRow(rows[i]) {
          assert CleanRow(table[i + 1]);
        }
      }
    }
  }

  /** These are the fields of this notification, in the order of the headers. */
  predicate NotificationFields(n: Notification, values: seq<string>) {
    values ==
      [n.id, n.userId, OrEmpty(n.tenantId), n.channel, n.kind, n.status, n.priority, OrEmpty(n.subject),
       OrEmpty(n.scheduledFor), OrEmpty(n.sentAt), OrEmpty(n.deliveredAt), OrEmpty(n.failedAt),
       Decimal(n.retryCount), OrEmpty(n.errorMessage), n.createdAt, n.updatedAt]
  }

  lemma NotificationValues(n: Notification)
    ensures NotificationFields(n, RowValues(NotificationRow(n)))
  {
  }

  /** These are the fields of this event, in the order of the headers. */
  predicate EventFields(e: EventRecord, values: seq<string>) {
    values ==
      [e.id, e.kind, e.userId, e.status, e.payloadJson, OrEmpty(e.processedAt), e.createdAt, e.updatedAt]
  }

  lemma EventValues(e: EventRecord)
    ensures EventFields(e, RowValues(EventRow(e)))
  {
  }

  /** These are the fields of this audit log, in the order of the headers. */
  predicate AuditLogFields(a: AuditLog, values: seq<string>) {
    values ==
      [a.id, a.userId, a.userEmail, a.action, OrEmpty(a.resourceType), OrEmpty(a.resourceId), a.detailsJson,
       OrEmpty(a.ipAddress), OrEmpty(a.userAgent), a.createdAt]
  }

  lemma AuditLogValues(a: AuditLog)
    ensures AuditLogFields(a, RowValues(AuditRow(a)))
  {
  }

  /** What a clean export parses to: the headers, then the values of the rows. */
  lemma ExportParsed(headers: seq<string>, rows: seq<seq<Cell>>)
    ensures var t := Values(Table(headers, rows));
            && |t| == |rows| + 1 && t[0] == headers
            && forall i :: 0 <= i < |rows| ==> t[i + 1] == RowValues(rows[i])
  {
    assert RowValues(RawRow(headers)) == headers;
  }

  lemma NotificationRowClean(n: Notification)
    ensures CleanRow(NotificationRow(n)) <==> CleanNotification(n)
  {
    DecimalClean(n.retryCount);
    var row := NotificationRow(n);
    if CleanRow(row) {
      assert CleanCell(row[0]) && CleanCell(row[1]) && CleanCell(row[2]) && CleanCell(row[3]) && CleanCell(row[4]);
      assert CleanCell(row[5]) && CleanCell(row[6]) && CleanCell(row[8]) && CleanCell(row[9]) && CleanCell(row[10]);
      assert CleanCell(row[11]) && CleanCell(row[14]) && CleanCell(row[15]);
    }
  }

  lemma EventRowClean(e: EventRecord)
    ensures CleanRow(EventRow(e)) <==> CleanEvent(e)
  {
    var row := EventRow(e);
    if CleanRow(row) {
      assert CleanCell(row[0]) && CleanCell(row[1]) && CleanCell(row[2]) && CleanCell(row[3]) && CleanCell(row[5]);
      assert CleanCell(row[6]) && CleanCell(row[7]);
    }
  }

  lemma AuditRowClean(a: AuditLog)
    ensures CleanRow(AuditRow(a)) <==> CleanAuditLog(a)
  {
    var row := AuditRow(a);
    if CleanRow(row) {
      assert CleanCell(row[0]) && CleanCell(row[1]) && CleanCell(row[2]) && CleanCell(row[3]) && CleanCell(row[4]);
      assert CleanCell(row[5]) && CleanCell(row[7]) && CleanCell(row[9]);
    }
  }
}
