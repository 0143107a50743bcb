/** When reading back a written CSV gives the written cells, and what every accepted CSV guarantees. */
module CsvRoundTrip {
  import opened Sequences
  import opened Wrappers
  import opened JsonValue
  import opened TabularCsv
  import Utf8

  predicate IsNewline(c: char) {
    c == '\r' || c == '\n'
  }

  predicate HasNewline(value: string) {
    exists i :: 0 <= i < |value| && IsNewline(value[i])
  }

  /** Some cell of the row holds a carriage return or a line feed. */
  predicate AnyNewline(row: seq<string>) {
    exists i :: 0 <= i < |row| && HasNewline(row[i])
  }

  predicate AnyNewlineIn(table: Table) {
    exists i :: 0 <= i < |table| && AnyNewline(table[i])
  }

  predicate FreshField(p: Parser) {
    !p.quoted && !p.fieldStarted && p.field == ""
  }

  /** The parser after unquoted characters that are not special. */
  function Typed(p: Parser, value: string): Parser {
    if value == "" then p else p.(field := p.field + value, fieldStarted := true, endedRecord := false)
  }

  lemma StepConsumes(p: Parser, head: char, tail: string, rest: string, cx: Context)
    requires Width(p, [head] + tail + rest) == 1
    ensures ([head] + tail + rest)[0] == head
    ensures Run(p, [head] + tail + rest, cx) ==
            match Step(p, [head] + tail + rest, cx) case Err(e) => Err(e) case Ok(q) => Run(q, tail + rest, cx)
  {
    assert ([head] + tail + rest)[1..] == tail + rest;
  }

  lemma TypesOne(p: Parser, c: char, after: string, cx: Context)
    requires !p.quoted && c !in {',', '"', '\r', '\n'}
    ensures Width(p, [c] + after) == 1
    ensures Step(p, [c] + after, cx) == Ok(Typed(p, [c]))
  {
  }

  lemma TypedTwice(p: Parser, c: char, tail: string)
    ensures Typed(Typed(p, [c]), tail) == Typed(p, [c] + tail)
  {
    assert p.field + ([c] + tail) == (p.field + [c]) + tail;
  }

  lemma {:induction false} ReadPlain(p: Parser, value: string, rest: string, cx: Context)
    requires !p.quoted && !NeedsQuotes(value)
    ensures Run(p, value + rest, cx) == Run(Typed(p, value), rest, cx)
    decreases |value|
  {
    hide Run, Step, Width;
    if value == "" {
      assert value + rest == rest;
    } else {
      var c, tail := value[0], value[1..];
      assert value == [c] + tail && [c] + tail + rest == [c] + (tail + rest);
      TypesOne(p, c, tail + rest, cx);
      StepConsumes(p, c, tail, rest, cx);
      assert forall i :: 0 <= i < |tail| ==> tail[i] == value[i + 1];
      ReadPlain(Typed(p, [c]), tail, rest, cx);
      TypedTwice(p, c, tail);
    }
  }

  lemma {:induction false} ReadQuoted(p: Parser, value: string, rest: string, cx: Context)
    requires p.quoted && (rest == "" || rest[0] != '"')
    ensures Run(p, DoubleQuotes(value) + ("\"" + rest), cx) ==
            if HasNewline(value) then Err(EmbeddedNewline)
            else Run(p.(field := p.field + value, quoted := false), rest, cx)
    decreases |value|
  {
    var close := "\"" + rest;
    if value == "" {
      assert DoubleQuotes(value) + close == close && close[1..] == rest;
      assert p.field + value == p.field;
    } else {
      var c, tail := value[0], value[1..];
      assert forall i :: 0 <= i < |tail| ==> tail[i] == value[i + 1];
      assert HasNewline(value) <==> IsNewline(c) || HasNewline(tail);
      if c == '"' {
        var text := "\"\"" + DoubleQuotes(tail) + close;
        assert text[2..] == DoubleQuotes(tail) + close;
      } else {
        StepConsumes(p, c, DoubleQuotes(tail), close, cx);
      }
      if !IsNewline(c) {
        ReadQuoted(p.(field := p.field + [c]), tail, rest, cx);
        assert p.field + [c] + tail == p.field + value;
      }
    }
  }

  /** The parser after a whole encoded field, before its separator. */
  function AfterField(p: Parser, value: string): Parser {
    p.(field := value, fieldStarted := value != "",
       endedRecord := p.endedRecord && (value == "" || NeedsQuotes(value)))
  }

  lemma ReadField(p: Parser, value: string, rest: string, cx: Context)
    requires FreshField(p)
    requires rest != "" && (rest[0] == ',' || rest[0] == '\r')
    ensures Run(p, EncodeField(value) + rest, cx) ==
            if HasNewline(value) then Err(EmbeddedNewline) else Run(AfterField(p, value), rest, cx)
  {
    if NeedsQuotes(value) {
      var body := DoubleQuotes(value) + ("\"" + rest);
      assert EncodeField(value) + rest == "\"" + body;
      assert ("\"" + body)[1..] == body;
      var q := p.(quoted := true, fieldStarted := true);
      assert Step(p, "\"" + body, cx) == Ok(q);
      ReadQuoted(q, value, rest, cx);
      assert "" + value == value;
    } else {
      assert !HasNewline(value);
      ReadPlain(p, value, rest, cx);
      assert "" + value == value;
    }
  }

  /** A record of these cells has ended before `rest`. */
  ghost function Ended(p: Parser, row: seq<string>, rest: string, cx: Context): Result<Table, ImportError> {
    match EndRecord(p.rows, p.headerSeen, row, cx)
    case Err(e) => Err(e)
    case Ok(q) => Run(q, rest, cx)
  }

  /** A record read from its start ends with exactly its cells, or fails on the first newline in one. */
  ghost function Outcome(p: Parser, row: seq<string>, values: seq<string>, rest: string, cx: Context)
    : Result<Table, ImportError>
  {
    if AnyNewline(values) then Err(EmbeddedNewline)
    else Ended(p, row + values, rest, cx)
  }

  lemma ReadComma(p: Parser, next: string, cx: Context)
    requires !p.quoted
    ensures Run(p, "," + next, cx) == Run(p.(row := p.row + [p.field], field := "", fieldStarted := false), next, cx)
  {
    assert ("," + next)[1..] == next;
  }

  lemma ReadCrlf(p: Parser, rest: string, cx: Context)
    requires !p.quoted
    ensures Run(p, "\r\n" + rest, cx) ==
            Ended(p, p.row + [p.field], rest, cx)
  {
    assert ("\r\n" + rest)[2..] == rest;
  }

  lemma ReadLastField(p: Parser, v: string, rest: string, cx: Context)
    requires FreshField(p)
    ensures Run(p, EncodeField(v) + ("\r\n" + rest), cx) == Outcome(p, p.row, [v], rest, cx)
  {
    hide Run, Step, EncodeField, HasNewline, EndRecord;
    ReadField(p, v, "\r\n" + rest, cx);
    ReadCrlf(AfterField(p, v), rest, cx);
    AnyNewlineOfMore(v, []);
    assert [v] + [] == [v];
  }

  lemma AnyNewlineOfMore(v: string, more: seq<string>)
    ensures AnyNewline([v] + more) <==> HasNewline(v) || AnyNewline(more)
    ensures !AnyNewline([])
  {
    hide HasNewline;
    var all := [v] + more;
    assert all[0] == v && forall i :: 0 <= i < |more| ==> all[i + 1] == more[i];
  }

  lemma {:induction false} ReadFields(p: Parser, values: seq<string>, rest: string, cx: Context)
    requires FreshField(p) && values != []
    ensures Run(p, EncodeField(values[0]) + (MoreFields(values[1..]) + ("\r\n" + rest)), cx)
         == Outcome(p, p.row, values, rest, cx)
    decreases |values|
  {
    hide Run, Step, EncodeField, MoreFields, HasNewline, AnyNewline, EndRecord;
    var v, more := values[0], values[1..];
    assert values == [v] + more;
    if |more| == 0 {
      NoMoreFields("\r\n" + rest);
      assert values == [v] && more == [];
      ReadLastField(p, v, rest, cx);
    } else {
      var next := EncodeField(more[0]) + (MoreFields(more[1..]) + ("\r\n" + rest));
      CommaFirst(more, "\r\n" + rest);
      AnyNewlineOfMore(v, more);
      ReadField(p, v, "," + next, cx);
      var q := AfterField(p, v);
      ReadComma(q, next, cx);
      ReadFields(q.(row := q.row + [v], field := "", fieldStarted := false), more, rest, cx);
      assert p.row + [v] + more == p.row + values;
    }
  }

  lemma NoMoreFields(rest: string)
    ensures MoreFields([]) + rest == rest
  {
  }

  lemma MoreFieldsHead(more: seq<string>)
    requires |more| > 0
    ensures MoreFields(more) == ("," + EncodeField(more[0])) + MoreFields(more[1..])
  {
    hide EncodeField;
  }

  lemma CommaFirst(more: seq<string>, rest: string)
    requires |more| > 0
    ensures MoreFields(more) + rest == "," + (EncodeField(more[0]) + (MoreFields(more[1..]) + rest))
  {
    hide EncodeField, MoreFields;
    var f, m := EncodeField(more[0]), MoreFields(more[1..]);
    MoreFieldsHead(more);
    Regroup("," + f, m, rest);
    Regroup(",", f, m + rest);
  }

  lemma ReadLine(p: Parser, values: seq<string>, rest: string, cx: Context)
    requires FreshField(p) && p.row == [] && values != []
    ensures Run(p, Line(values) + rest, cx) == Outcome(p, [], values, rest, cx)
  {
    var more := MoreFields(values[1..]);
    assert Line(values) + rest == EncodeField(values[0]) + (more + ("\r\n" + rest));
    ReadFields(p, values, rest, cx);
  }

  // ---------- whole documents ----------

  function Boundary(rows: Table): Parser {
    Parser(rows, [], "", false, false, true, true)
  }

  lemma EndAtBoundary(rows: Table, cx: Context)
    ensures Run(Boundary(rows), "", cx) == Ok(rows)
  {
  }

  ghost predicate RowsConform(table: Table, cx: Context) {
    forall i :: 0 <= i < |table| ==>
      |table[i]| == |cx.schema.columns| && CellFault(table[i], cx.schema.columns, cx.lexicon).None?
  }

  lemma ReadRecord(rows: Table, row: seq<string>, rest: string, cx: Context)
    requires cx.schema.columns != [] && RowsConform([row], cx)
    ensures Run(Boundary(rows), Line(row) + rest, cx) ==
            if AnyNewline(row) then Err(EmbeddedNewline)
            else if |rows| + 1 > cx.maxRows then Err(RowLimitExceeded)
            else Run(Boundary(rows + [row]), rest, cx)
  {
    assert [row][0] == row;
    ReadLine(Boundary(rows), row, rest, cx);
    assert [] + row == row;
  }

  /** What reading the records one after the other amounts to. */
  ghost function ReadAll(rows: Table, table: Table, rest: string, cx: Context): Result<Table, ImportError>
    decreases |table|
  {
    if |table| == 0 then Run(Boundary(rows), rest, cx)
    else if AnyNewline(table[0]) then Err(EmbeddedNewline)
    else if |rows| + 1 > cx.maxRows then Err(RowLimitExceeded)
    else ReadAll(rows + [table[0]], table[1..], rest, cx)
  }

  lemma {:induction false} ReadRecords(rows: Table, table: Table, rest: string, cx: Context)
    requires cx.schema.columns != [] && RowsConform(table, cx)
    ensures Run(Boundary(rows), Records(table) + rest, cx) == ReadAll(rows, table, rest, cx)
    decreases |table|
  {
    if |table| == 0 {
      assert Records(table) + rest == rest;
    } else {
      var row, more := table[0], table[1..];
      Regroup(Line(row), Records(more), rest);
      assert RowsConform([row], cx) && RowsConform(more, cx);
      ReadRecord(rows, row, Records(more) + rest, cx);
      ReadRecords(rows + [row], more, rest, cx);
    }
  }

  lemma {:induction false} ReadAllOutcome(rows: Table, table: Table, rest: string, cx: Context)
    ensures if AnyNewlineIn(table) || (table != [] && |rows| + |table| > cx.maxRows)
            then ReadAll(rows, table, rest, cx).Err?
            else ReadAll(rows, table, rest, cx) == Run(Boundary(rows + table), rest, cx)
    decreases |table|
  {
    if |table| == 0 {
      assert rows + table == rows;
    } else {
      ReadAllOutcome(rows + [table[0]], table[1..], rest, cx);
      assert rows + [table[0]] + table[1..] == rows + table;
      assert AnyNewlineIn(table) <==> AnyNewline(table[0]) || AnyNewlineIn(table[1..]) by {
        assert table == [table[0]] + table[1..];
      }
    }
  }

  /** Everything decoding a written table asks for beyond what writing it did. */
  predicate Portable(schema: Schema, table: Table, limits: Limits) {
    |schema.columns| <= limits.maxColumns && |table| <= limits.maxRows &&
    !AnyNewline(Names(schema)) && !AnyNewlineIn(table) && !BomFirst(schema)
  }

  /** The header line starts with a byte order mark, because the first name does and needs no quotes. */
  predicate BomFirst(schema: Schema) {
    schema.columns != [] && schema.columns[0].name != "" &&
    schema.columns[0].name[0] == '\U{FEFF}' && !NeedsQuotes(schema.columns[0].name)
  }

  ghost function WrittenText(schema: Schema, table: Table): string {
    Records([Names(schema)] + table)
  }

  lemma ReadDocument(schema: Schema, table: Table, rest: string, cx: Context)
    requires cx.schema == schema && schema.columns != [] && RowsConform(table, cx)
    ensures if AnyNewline(Names(schema)) || AnyNewlineIn(table) || |table| > cx.maxRows
            then Run(START, WrittenText(schema, table) + rest, cx).Err?
            else Run(START, WrittenText(schema, table) + rest, cx) == Run(Boundary(table), rest, cx)
  {
    var names := Names(schema);
    assert ([names] + table)[1..] == table;
    var tail := Records(table) + rest;
    assert WrittenText(schema, table) + rest == Line(names) + tail;
    ReadLine(START, names, tail, cx);
    assert [] + names == names;
    ReadRecords([], table, rest, cx);
    ReadAllOutcome([], table, rest, cx);
    assert [] + table == table;
  }

  lemma BomOfDocument(schema: Schema, table: Table)
    requires schema.columns != [] && schema.columns[0].name != ""
    ensures Utf8.BOM <= Utf8.Encode(WrittenText(schema, table)) <==> BomFirst(schema)
  {
    var text := WrittenText(schema, table);
    var name := schema.columns[0].name;
    assert text != "" && text[0] == EncodeField(name)[0];
    Utf8.BomIsFirstChar(text);
  }

  lemma WrittenTableConforms(schema: Schema, rows: seq<Json>, lexicon: Lexicon)
    requires Written(schema, rows, lexicon).Ok?
    ensures var table := TableText(rows, schema, lexicon);
            table.Ok? && |table.value| == |rows| && schema.columns != [] && schema.columns[0].name != ""
    ensures forall cx: Context :: cx.schema == schema && cx.lexicon == lexicon
              ==> RowsConform(TableText(rows, schema, lexicon).value, cx)
    ensures Written(schema, rows, lexicon) == Ok(Utf8.Encode(WrittenText(schema, TableText(rows, schema, lexicon).value)))
  {
    var table := TableText(rows, schema, lexicon).value;
    forall i | 0 <= i < |table| ensures |table[i]| == |schema.columns| && CellFault(table[i], schema.columns, lexicon).None? {
      TableRow(rows, schema, lexicon, i);
    }
  }

  /**
   The round trip, exactly: decoding a written table gives back its cells, row by row in schema
   order, if and only if the table is portable; otherwise decoding fails.
   */
  lemma WrittenDecodesExactly(schema: Schema, rows: seq<Json>, limits: Limits, lexicon: Lexicon)
    requires Written(schema, rows, lexicon).Ok?
    ensures TableText(rows, schema, lexicon).Ok?
    ensures var table := TableText(rows, schema, lexicon).value;
            var decoded := Decoded(Written(schema, rows, lexicon).value, schema, limits, lexicon);
            if Portable(schema, table, limits) then decoded == Ok(table) else decoded.Err?
  {
    hide TableText, Run, Utf8.Encode, Utf8.Decode, RowsConform;
    var cx := Context(schema, limits.maxRows, lexicon);
    WrittenTableConforms(schema, rows, lexicon);
    var table := TableText(rows, schema, lexicon).value;
    var text := WrittenText(schema, table);
    BomOfDocument(schema, table);
    Utf8.RoundTrip(text);
    ReadDocument(schema, table, "", cx);
    EndAtBoundary(table, cx);
    assert text + "" == text;
  }

  /** The cell written for a row and column is the text of that row's value under that column's name. */
  lemma WrittenCells(schema: Schema, rows: seq<Json>, lexicon: Lexicon, i: nat, j: nat)
    requires TableText(rows, schema, lexicon).Ok? && i < |rows| && j < |schema.columns|
    ensures rows[i].Object? && HasKey(rows[i].members, schema.columns[j].name)
    ensures |TableText(rows, schema, lexicon).value[i]| == |schema.columns|
    ensures CellText(Lookup(rows[i].members, schema.columns[j].name), schema.columns[j].columnType)
         == Ok(TableText(rows, schema, lexicon).value[i][j])
  {
    hide TableText, CellFault, CellText, Lookup;
    TableRow(rows, schema, lexicon, i);
  }

  // ---------- every accepted document ----------

  ghost predicate RowFits(row: seq<string>, columns: seq<Column>, lexicon: Lexicon) {
    |row| == |columns| && forall i :: 0 <= i < |row| ==> ValidCell(row[i], columns[i].columnType, lexicon)
  }

  lemma {:induction false} FaultlessCells(row: seq<string>, columns: seq<Column>, lexicon: Lexicon)
    requires |row| == |columns|
    ensures CellFault(row, columns, lexicon).None? <==> RowFits(row, columns, lexicon)
  {
    if row != [] {
      FaultlessCells(row[1..], columns[1..], lexicon);
      assert row == [row[0]] + row[1..] && columns == [columns[0]] + columns[1..];
    }
  }

  lemma {:induction false} RunKeepsConformance(p: Parser, text: string, cx: Context)
    requires RowsConform(p.rows, cx) && |p.rows| <= cx.maxRows
    ensures var r := Run(p, text, cx); r.Ok? ==> RowsConform(r.value, cx) && |r.value| <= cx.maxRows && p.rows <= r.value
    decreases |text|
  {
    if |text| > 0 && Step(p, text, cx).Ok? {
      RunKeepsConformance(Step(p, text, cx).value, text[Width(p, text)..], cx);
    }
  }

  /** Whatever bytes are accepted, every decoded row fits the schema cell by cell and the row limit holds. */
  lemma AcceptedRowsFitSchema(bytes: seq<Utf8.Byte>, schema: Schema, limits: Limits, lexicon: Lexicon)
    requires Decoded(bytes, schema, limits, lexicon).Ok?
    ensures var table := Decoded(bytes, schema, limits, lexicon).value;
            |table| <= limits.maxRows &&
            forall i :: 0 <= i < |table| ==> RowFits(table[i], schema.columns, lexicon)
  {
    var cx := Context(schema, limits.maxRows, lexicon);
    var table := Decoded(bytes, schema, limits, lexicon).value;
    RunKeepsConformance(START, Utf8.Decode(bytes).value, cx);
    forall i | 0 <= i < |table| ensures RowFits(table[i], schema.columns, lexicon) {
      FaultlessCells(table[i], schema.columns, lexicon);
    }
  }

  // ---------- where the parser is more lenient than the printer ----------

  /** A stray pair of quotes after the last record changes nothing, so decoding is not injective. */
  lemma TrailingQuotesAreIgnored(schema: Schema, rows: seq<Json>, limits: Limits, lexicon: Lexicon)
    requires Written(schema, rows, lexicon).Ok?
    requires Portable(schema, TableText(rows, schema, lexicon).value, limits)
    ensures var bytes := Written(schema, rows, lexicon).value;
            Decoded(bytes + Utf8.Encode("\"\""), schema, limits, lexicon) == Ok(TableText(rows, schema, lexicon).value)
  {
    var cx := Context(schema, limits.maxRows, lexicon);
    var table := TableText(rows, schema, lexicon).value;
    WrittenTableConforms(schema, rows, lexicon);
    var text := WrittenText(schema, table);
    BomOfDocument(schema, table);
    Utf8.EncodeConcat(text, "\"\"");
    Utf8.BomIsFirstChar(text);
    Utf8.BomIsFirstChar(text + "\"\"");
    Utf8.RoundTrip(text + "\"\"");
    ReadDocument(schema, table, "\"\"", cx);
    var p := Boundary(table);
    var q := p.(quoted := true, fieldStarted := true);
    assert Step(p, "\"\"", cx) == Ok(q) && "\"\""[1..] == "\"";
    assert Step(q, "\"", cx) == Ok(q.(quoted := false)) && "\""[1..] == "";
  }

  /** A quoted part and plain characters right after it are read as one field. */
  lemma PlainAfterQuoted(p: Parser, value: string, more: string, rest: string, cx: Context)
    requires FreshField(p) && !HasNewline(value) && !NeedsQuotes(more) && more != ""
    ensures Run(p, "\"" + (DoubleQuotes(value) + ("\"" + (more + rest))), cx)
         == Run(p.(field := value + more, fieldStarted := true, endedRecord := false), rest, cx)
  {
    var body := DoubleQuotes(value) + ("\"" + (more + rest));
    assert ("\"" + body)[1..] == body;
    var q := p.(quoted := true, fieldStarted := true);
    assert Step(p, "\"" + body, cx) == Ok(q);
    ReadQuoted(q, value, more + rest, cx);
    assert "" + value == value;
    ReadPlain(q.(field := value, quoted := false), more, rest, cx);
  }
}
