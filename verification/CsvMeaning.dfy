/** What JSON rows mean once they have been written as CSV and read back, and which rows can be written. */
module CsvMeaning {
  import opened Wrappers
  import opened JsonValue
  import opened NumberScanner
  import opened Decimal
  import opened TabularCsv
  import opened CsvRoundTrip
  import Utf8

  // ---------- the meaning of a cell ----------

  /** The cell stands for this value in a column of this type. */
  predicate Means(cell: string, value: Json, columnType: ColumnType) {
    match value
    case String(s) => cell == s
    case Number(text) => (columnType == Int64Type || columnType == Float64Type) && cell == text
    case Bool(b) => columnType == BooleanType && (cell == "true" <==> b) && (cell == "false" <==> !b)
    case _ => false
  }

  /** The texts a column of this type holds. */
  ghost predicate TextAllowed(text: string, columnType: ColumnType, lexicon: Lexicon) {
    match columnType
    case BooleanType => text == "true" || text == "false"
    case Int64Type =>
      text == "-0" || exists n :: -0x8000_0000_0000_0000 <= n < 0x8000_0000_0000_0000 && text == OfInt(n)
    case Float64Type => IsNumber(text) && lexicon.parseF64(text) == Some(Finite)
    case StringType => true
    case UuidType => lexicon.isUuid(text) && !exists i :: 0 <= i < |text| && 'A' <= text[i] <= 'Z'
    case TimestampType => lexicon.isRfc3339(text) && text != "" && text[|text| - 1] == 'Z'
  }

  /** The values that can be written in a column of this type. */
  ghost predicate ValueAllowed(value: Json, columnType: ColumnType, lexicon: Lexicon) {
    match value
    case String(s) => TextAllowed(s, columnType, lexicon)
    case Number(text) =>
      (columnType == Int64Type || columnType == Float64Type) && TextAllowed(text, columnType, lexicon)
    case Bool(_) => columnType == BooleanType
    case _ => false
  }

  ghost predicate NamesAreColumns(members: seq<Member>, columns: seq<Column>) {
    |members| == |columns| && (forall j :: 0 <= j < |columns| ==> HasKey(members, columns[j].name)) &&
    forall i :: 0 <= i < |members| ==> IsColumn(columns, members[i].key)
  }

  ghost predicate IsRow(row: Json, columns: seq<Column>) {
    row.Object? && NamesAreColumns(row.members, columns)
  }

  /** An object with exactly the columns' names, each with a value its column allows. */
  ghost predicate RowAllowed(row: Json, columns: seq<Column>, lexicon: Lexicon) {
    IsRow(row, columns) &&
    forall j :: 0 <= j < |columns| ==> ValueAllowed(Lookup(row.members, columns[j].name), columns[j].columnType, lexicon)
  }

  ghost predicate SchemaAllowed(schema: Schema, maxColumns: nat) {
    schema.profile == "queryfabric.tabular-csv/1" && 1 <= |schema.columns| <= maxColumns &&
    (forall j :: 0 <= j < |schema.columns| ==> 1 <= |Utf8.Encode(schema.columns[j].name)| <= 256) &&
    forall i, j :: 0 <= i < j < |schema.columns| ==> schema.columns[i].name != schema.columns[j].name
  }

  /** A text written for a value means it, and it is valid exactly when the value is allowed. */
  ghost predicate WritesAs(value: Json, columnType: ColumnType, text: Result<string, ImportError>, lexicon: Lexicon) {
    (text.Ok? ==> Means(text.value, value, columnType)) &&
    (text.Ok? && ValidCell(text.value, columnType, lexicon) <==> ValueAllowed(value, columnType, lexicon)) &&
    (text.Err? ==> text.error == if value.Null? then NullNotAllowed else CellTypeMismatch)
  }

  lemma CellTextMeans(value: Json, columnType: ColumnType, lexicon: Lexicon)
    ensures WritesAs(value, columnType, CellText(value, columnType), lexicon)
  {
    var text := CellText(value, columnType);
    assert "true" != "false" by { assert |"true"| != |"false"|; }
    if text.Ok? && columnType == Int64Type { ValidIntegerExactly(text.value); }
  }

  // ---------- rows ----------

  lemma {:induction false} CellsWritten(members: seq<Member>, columns: seq<Column>)
    requires forall j :: 0 <= j < |columns| ==> HasKey(members, columns[j].name)
    ensures RowCells(members, columns).Ok? <==>
            forall j :: 0 <= j < |columns| ==> CellText(Lookup(members, columns[j].name), columns[j].columnType).Ok?
    decreases |columns|
  {
    hide CellText, Lookup, HasKey;
    if columns != [] {
      CellsWritten(members, columns[1..]);
      assert columns == [columns[0]] + columns[1..];
    }
  }

  /** Cell by cell, the row's values under the columns' names. */
  ghost predicate CellsMean(cells: seq<string>, row: Json, columns: seq<Column>)
    requires IsRow(row, columns)
  {
    |cells| == |columns| && forall j :: 0 <= j < |columns| ==>
      Means(cells[j], Lookup(row.members, columns[j].name), columns[j].columnType)
  }

  lemma FieldsAreNames(members: seq<Member>, columns: seq<Column>)
    ensures FieldsMatch(members, columns) <==> NamesAreColumns(members, columns)
  {
    hide HasKey;
  }

  lemma RowMeans(row: Json, schema: Schema, lexicon: Lexicon)
    ensures RowText(row, schema, lexicon).Ok? <==> RowAllowed(row, schema.columns, lexicon)
    ensures RowText(row, schema, lexicon).Ok? ==>
              CellsMean(RowText(row, schema, lexicon).value, row, schema.columns)
  {
    hide CellText, Lookup, HasKey, CellFault, ValidCell, ValueAllowed, Means;
    var columns := schema.columns;
    if row.Object? { FieldsAreNames(row.members, columns); }
    if row.Object? && FieldsMatch(row.members, columns) {
      CellsWritten(row.members, columns);
      forall j | 0 <= j < |columns|
        ensures var value, columnType := Lookup(row.members, columns[j].name), columns[j].columnType;
                WritesAs(value, columnType, CellText(value, columnType), lexicon)
      {
        CellTextMeans(Lookup(row.members, columns[j].name), columns[j].columnType, lexicon);
      }
      var cells := RowCells(row.members, columns);
      if cells.Ok? {
        FaultlessCells(cells.value, columns, lexicon);
        assert RowFits(cells.value, columns, lexicon) <==> RowAllowed(row, columns, lexicon);
      } else {
        var j :| 0 <= j < |columns| && CellText(Lookup(row.members, columns[j].name), columns[j].columnType).Err?;
        assert !ValueAllowed(Lookup(row.members, columns[j].name), columns[j].columnType, lexicon);
      }
    }
  }

  lemma {:induction false} RowsWritten(rows: seq<Json>, schema: Schema, lexicon: Lexicon)
    ensures TableText(rows, schema, lexicon).Ok? <==>
            forall i :: 0 <= i < |rows| ==> RowAllowed(rows[i], schema.columns, lexicon)
    decreases |rows|
  {
    hide RowText, RowAllowed;
    if |rows| > 0 {
      RowMeans(rows[0], schema, lexicon);
      RowsWritten(rows[1..], schema, lexicon);
      assert rows == [rows[0]] + rows[1..];
    }
  }

  lemma SchemaFaultless(schema: Schema, maxColumns: nat)
    ensures SchemaFault(schema, maxColumns).None? <==> SchemaAllowed(schema, maxColumns)
  {
    forall j | 0 <= j < |schema.columns|
      ensures GoodName(schema.columns[j].name) <==> 1 <= |Utf8.Encode(schema.columns[j].name)| <= 256
    {
      assert schema.columns[j].name == "" ==> Utf8.Encode(schema.columns[j].name) == [];
    }
  }

  /** Writing succeeds for exactly these schemas and rows. */
  lemma WritesExactly(schema: Schema, rows: seq<Json>, lexicon: Lexicon)
    ensures Written(schema, rows, lexicon).Ok? <==>
            SchemaAllowed(schema, 128) && |rows| <= 5_000_000 &&
            forall i :: 0 <= i < |rows| ==> RowAllowed(rows[i], schema.columns, lexicon)
  {
    hide TableText, RowAllowed, SchemaAllowed, SchemaFault;
    SchemaFaultless(schema, DEFAULT_MAX_COLUMNS);
    RowsWritten(rows, schema, lexicon);
  }

  // ---------- there and back ----------

  /** The value is written with a carriage return or a line feed in it. */
  predicate BreaksLine(value: Json) {
    (value.String? && HasNewline(value.s)) || (value.Number? && HasNewline(value.text))
  }

  ghost predicate RowBreaks(row: Json, columns: seq<Column>)
    requires IsRow(row, columns)
  {
    exists j :: 0 <= j < |columns| && BreaksLine(Lookup(row.members, columns[j].name))
  }

  ghost predicate AreRows(rows: seq<Json>, columns: seq<Column>) {
    forall i :: 0 <= i < |rows| ==> IsRow(rows[i], columns)
  }

  /** What reading the rows back asks for beyond what writing them did. */
  ghost predicate Returns(schema: Schema, rows: seq<Json>, limits: Limits)
    requires AreRows(rows, schema.columns)
  {
    |schema.columns| <= limits.maxColumns && |rows| <= limits.maxRows && !BomFirst(schema) &&
    (forall j :: 0 <= j < |schema.columns| ==> !HasNewline(schema.columns[j].name)) &&
    forall i :: 0 <= i < |rows| ==> !RowBreaks(rows[i], schema.columns)
  }

  ghost predicate TableMeans(table: Table, rows: seq<Json>, schema: Schema)
    requires AreRows(rows, schema.columns)
  {
    |table| == |rows| && forall i :: 0 <= i < |rows| ==> CellsMean(table[i], rows[i], schema.columns)
  }

  lemma BreaksAre(cell: string, value: Json, columnType: ColumnType)
    requires Means(cell, value, columnType)
    ensures HasNewline(cell) <==> BreaksLine(value)
  {
    if value.Bool? {
      assert cell == "true" || cell == "false";
      assert !HasNewline("true") && !HasNewline("false");
    }
  }

  lemma RowBreaksAre(cells: seq<string>, row: Json, columns: seq<Column>)
    requires IsRow(row, columns) && CellsMean(cells, row, columns)
    ensures AnyNewline(cells) <==> RowBreaks(row, columns)
  {
    hide Lookup, Means, HasNewline, BreaksLine;
    forall j | 0 <= j < |columns| ensures HasNewline(cells[j]) <==> BreaksLine(Lookup(row.members, columns[j].name)) {
      BreaksAre(cells[j], Lookup(row.members, columns[j].name), columns[j].columnType);
    }
  }

  lemma TableTextMeans(schema: Schema, rows: seq<Json>, lexicon: Lexicon)
    requires TableText(rows, schema, lexicon).Ok?
    ensures AreRows(rows, schema.columns) && TableMeans(TableText(rows, schema, lexicon).value, rows, schema)
  {
    hide TableText, IsRow, CellsMean;
    var table := TableText(rows, schema, lexicon).value;
    forall i | 0 <= i < |rows| ensures IsRow(rows[i], schema.columns) && CellsMean(table[i], rows[i], schema.columns) {
      TableRow(rows, schema, lexicon, i);
      RowMeans(rows[i], schema, lexicon);
    }
  }

  lemma PortableIsReturns(schema: Schema, rows: seq<Json>, table: Table, limits: Limits)
    requires AreRows(rows, schema.columns) && TableMeans(table, rows, schema)
    ensures Portable(schema, table, limits) <==> Returns(schema, rows, limits)
  {
    hide IsRow, CellsMean, RowBreaks, BomFirst, HasNewline;
    var names := Names(schema);
    assert AnyNewline(names) <==> exists j :: 0 <= j < |schema.columns| && HasNewline(schema.columns[j].name) by {
      forall j | 0 <= j < |names| ensures names[j] == schema.columns[j].name {
      }
    }
    forall i | 0 <= i < |rows| ensures AnyNewline(table[i]) <==> RowBreaks(rows[i], schema.columns) {
      RowBreaksAre(table[i], rows[i], schema.columns);
    }
  }

  /**
   JSON rows written as CSV come back as themselves: where reading succeeds every cell means the value it was
   written for, and it succeeds exactly when no name or value breaks a line, the first name does not begin
   with a byte order mark and the limits allow it.
   */
  lemma JsonRowsComeBack(schema: Schema, rows: seq<Json>, limits: Limits, lexicon: Lexicon)
    requires Written(schema, rows, lexicon).Ok?
    ensures AreRows(rows, schema.columns)
    ensures var decoded := Decoded(Written(schema, rows, lexicon).value, schema, limits, lexicon);
            if Returns(schema, rows, limits) then decoded.Ok? && TableMeans(decoded.value, rows, schema) else decoded.Err?
  {
    hide TableText, Returns, Portable, TableMeans, AreRows, Decoded;
    WrittenDecodesExactly(schema, rows, limits, lexicon);
    TableTextMeans(schema, rows, lexicon);
    PortableIsReturns(schema, rows, TableText(rows, schema, lexicon).value, limits);
  }
}
