/** The portable tabular CSV profile: its printer, its character-level parser, and how they fit (import.rs). */
module TabularCsv {
  import opened Sequences
  import opened Wrappers
  import opened JsonValue
  import opened NumberScanner
  import Utf8

  const PROFILE := "queryfabric.tabular-csv/1"
  const DEFAULT_MAX_ROWS: nat := 5_000_000
  const DEFAULT_MAX_COLUMNS: nat := 128

  datatype ColumnType = BooleanType | Int64Type | Float64Type | StringType | UuidType | TimestampType

  datatype Column = Column(name: string, columnType: ColumnType)

  datatype Schema = Schema(profile: string, columns: seq<Column>)

  datatype Limits = Limits(maxRows: nat, maxColumns: nat)

  /** The library parsers the profile leans on. */
  datatype Lexicon = Lexicon(
    parseF64: string -> Option<FloatClass>,
    isUuid: string -> bool,
    isRfc3339: string -> bool)

  datatype ImportError =
    | BadProfile | TooManyColumns | BadColumnName
    | RowLimitExceeded | RowNotAnObject | RowFieldsMismatch | NullNotAllowed | CellTypeMismatch
    | InvalidCell(columnType: ColumnType, name: string)
    | ByteOrderMark | NotUtf8 | EmbeddedNewline | QuoteInsideField | FieldCountMismatch
    | HeaderMismatch | BareLineFeed | MissingFinalCrlf

  type Table = seq<seq<string>>

  // ---------- schema and cell checks ----------

  predicate GoodName(name: string) {
    name != "" && |Utf8.Encode(name)| <= 256
  }

  predicate GoodNames(columns: seq<Column>) {
    (forall i :: 0 <= i < |columns| ==> GoodName(columns[i].name)) &&
    forall i, j :: 0 <= i < j < |columns| ==> columns[i].name != columns[j].name
  }

  function SchemaFault(schema: Schema, maxColumns: nat): Option<ImportError> {
    if schema.profile != PROFILE || schema.columns == [] then Some(BadProfile)
    else if |schema.columns| > maxColumns then Some(TooManyColumns)
    else if !GoodNames(schema.columns) then Some(BadColumnName)
    else None
  }

  method ValidateSchema(schema: Schema, maxColumns: nat) returns (fault: Option<ImportError>)
    ensures fault == SchemaFault(schema, maxColumns)
  {
    if schema.profile != PROFILE || schema.columns == [] {
      return Some(BadProfile);
    }
    if |schema.columns| > maxColumns {
      return Some(TooManyColumns);
    }
    var columns := schema.columns;
    var names: set<string> := {};
    for i := 0 to |columns|
      invariant forall name :: name in names ==> exists j :: 0 <= j < i && columns[j].name == name
      invariant forall j :: 0 <= j < i ==> columns[j].name in names && GoodName(columns[j].name)
      invariant forall j, k :: 0 <= j < k < i ==> columns[j].name != columns[k].name
    {
      if !GoodName(columns[i].name) || columns[i].name in names {
        return Some(BadColumnName);
      }
      names := names + {columns[i].name};
    }
    return None;
  }

  ghost predicate ValidCell(value: string, columnType: ColumnType, lexicon: Lexicon) {
    match columnType
    case BooleanType => value == "true" || value == "false"
    case Int64Type => ValidInteger(value)
    case Float64Type => IsNumber(value) && lexicon.parseF64(value) == Some(Finite)
    case StringType => true
    case UuidType => lexicon.isUuid(value) && forall i :: 0 <= i < |value| ==> !('A' <= value[i] <= 'Z')
    case TimestampType => value != "" && value[|value| - 1] == 'Z' && lexicon.isRfc3339(value)
  }

  /** The complaint about the first cell its column does not allow, if there is one. */
  ghost function CellFault(row: seq<string>, columns: seq<Column>, lexicon: Lexicon): Option<ImportError> {
    if row == [] || columns == [] then None
    else if !ValidCell(row[0], columns[0].columnType, lexicon) then
      Some(InvalidCell(columns[0].columnType, columns[0].name))
    else CellFault(row[1..], columns[1..], lexicon)
  }

  method ValidateValues(row: seq<string>, columns: seq<Column>, lexicon: Lexicon) returns (fault: Option<ImportError>)
    ensures fault == CellFault(row, columns, lexicon)
  {
    var i := 0;
    while i < |row| && i < |columns|
      invariant 0 <= i <= |row| && i <= |columns|
      invariant CellFault(row[i..], columns[i..], lexicon) == CellFault(row, columns, lexicon)
    {
      var value, column := row[i], columns[i];
      var valid: bool;
      match column.columnType {
        case BooleanType => valid := value == "true" || value == "false";
        case Int64Type => valid := ValidInteger(value);
        case Float64Type => valid := ValidFloat(value, lexicon.parseF64);
        case StringType => valid := true;
        case UuidType =>
          valid := lexicon.isUuid(value) && forall i :: 0 <= i < |value| ==> !('A' <= value[i] <= 'Z');
        case TimestampType => valid := value != "" && value[|value| - 1] == 'Z' && lexicon.isRfc3339(value);
      }
      if !valid {
        return Some(InvalidCell(column.columnType, column.name));
      }
      i := i + 1;
    }
    return None;
  }

  // ---------- the printer ----------

  predicate NeedsQuotes(value: string) {
    exists i :: 0 <= i < |value| && value[i] in {',', '"', '\r', '\n'}
  }

  function DoubleQuotes(value: string): string {
    if value == "" then ""
    else (if value[0] == '"' then "\"\"" else [value[0]]) + DoubleQuotes(value[1..])
  }

  function EncodeField(value: string): string {
    if NeedsQuotes(value) then "\"" + DoubleQuotes(value) + "\"" else value
  }

  /** Encoded fields joined by commas. */
  function Fields(values: seq<string>): string {
    if values == [] then "" else EncodeField(values[0]) + MoreFields(values[1..])
  }

  function MoreFields(values: seq<string>): string {
    if values == [] then "" else "," + EncodeField(values[0]) + MoreFields(values[1..])
  }

  function Line(values: seq<string>): string {
    Fields(values) + "\r\n"
  }

  function Records(table: Table): string {
    if |table| == 0 then "" else Line(table[0]) + Records(table[1..])
  }

  function Names(schema: Schema): (names: seq<string>)
    ensures |names| == |schema.columns|
    ensures forall i :: 0 <= i < |names| ==> names[i] == schema.columns[i].name
  {
    seq(|schema.columns|, i requires 0 <= i < |schema.columns| => schema.columns[i].name)
  }

  function CellText(value: Json, columnType: ColumnType): Result<string, ImportError> {
    match value
    case String(s) => Ok(s)
    case Bool(b) =>
      if columnType == BooleanType then Ok(if b then "true" else "false") else Err(CellTypeMismatch)
    case Number(text) =>
      if columnType == Int64Type || columnType == Float64Type then Ok(text) else Err(CellTypeMismatch)
    case Null => Err(NullNotAllowed)
    case _ => Err(CellTypeMismatch)
  }

  predicate IsColumn(columns: seq<Column>, name: string) {
    exists j :: 0 <= j < |columns| && columns[j].name == name
  }

  predicate FieldsMatch(members: seq<Member>, columns: seq<Column>) {
    |members| == |columns| &&
    (forall i :: 0 <= i < |columns| ==> HasKey(members, columns[i].name)) &&
    forall i :: 0 <= i < |members| ==> IsColumn(columns, members[i].key)
  }

  /** The cells of a row in schema order. */
  function RowCells(members: seq<Member>, columns: seq<Column>): (r: Result<seq<string>, ImportError>)
    requires forall i :: 0 <= i < |columns| ==> HasKey(members, columns[i].name)
    ensures r.Ok? ==> |r.value| == |columns| && forall i :: 0 <= i < |columns| ==>
              CellText(Lookup(members, columns[i].name), columns[i].columnType) == Ok(r.value[i])
  {
    if columns == [] then Ok([])
    else
      match CellText(Lookup(members, columns[0].name), columns[0].columnType)
      case Err(e) => Err(e)
      case Ok(cell) =>
        match RowCells(members, columns[1..])
        case Err(e) => Err(e)
        case Ok(cells) => Ok([cell] + cells)
  }

  ghost function RowText(row: Json, schema: Schema, lexicon: Lexicon): (r: Result<seq<string>, ImportError>)
    ensures r.Ok? ==> |r.value| == |schema.columns| && CellFault(r.value, schema.columns, lexicon).None?
  {
    if !row.Object? then Err(RowNotAnObject)
    else if !FieldsMatch(row.members, schema.columns) then Err(RowFieldsMismatch)
    else
      match RowCells(row.members, schema.columns)
      case Err(e) => Err(e)
      case Ok(cells) =>
        match CellFault(cells, schema.columns, lexicon)
        case Some(e) => Err(e)
        case None => Ok(cells)
  }

  /** The table a list of JSON rows stands for. */
  ghost function TableText(rows: seq<Json>, schema: Schema, lexicon: Lexicon): (r: Result<Table, ImportError>)
    ensures r.Ok? ==> |r.value| == |rows|
  {
    hide RowText;
    if |rows| == 0 then Ok([])
    else
      match RowText(rows[0], schema, lexicon)
      case Err(e) => Err(e)
      case Ok(cells) =>
        match TableText(rows[1..], schema, lexicon)
        case Err(e) => Err(e)
        case Ok(table) => Ok([cells] + table)
  }

  lemma {:induction false} TableRow(rows: seq<Json>, schema: Schema, lexicon: Lexicon, i: nat)
    requires TableText(rows, schema, lexicon).Ok? && i < |rows|
    ensures RowText(rows[i], schema, lexicon) == Ok(TableText(rows, schema, lexicon).value[i])
  {
    hide RowText;
    if i > 0 { TableRow(rows[1..], schema, lexicon, i - 1); }
  }

  ghost function Written(schema: Schema, rows: seq<Json>, lexicon: Lexicon): Result<seq<Utf8.Byte>, ImportError> {
    match SchemaFault(schema, DEFAULT_MAX_COLUMNS)
    case Some(e) => Err(e)
    case None =>
      if |rows| > DEFAULT_MAX_ROWS then Err(RowLimitExceeded)
      else
        match TableText(rows, schema, lexicon)
        case Err(e) => Err(e)
        case Ok(table) => Ok(Utf8.Encode(Records([Names(schema)] + table)))
  }

  method EncodeRow(values: seq<string>) returns (line: string)
    ensures line == Fields(values)
  {
    line := "";
    for i := 0 to |values|
      invariant i == 0 ==> line == ""
      invariant i > 0 ==> line + MoreFields(values[i..]) == Fields(values)
    {
      assert values[i..][1..] == values[i + 1..];
      if i > 0 {
        line := line + ",";
      }
      line := line + EncodeField(values[i]);
    }
  }

  method WriteRow(row: Json, schema: Schema, lexicon: Lexicon) returns (r: Result<string, ImportError>)
    ensures match RowText(row, schema, lexicon) case Err(e) => r == Err(e) case Ok(cells) => r == Ok(Line(cells))
  {
    if !row.Object? {
      return Err(RowNotAnObject);
    }
    if !FieldsMatch(row.members, schema.columns) {
      return Err(RowFieldsMismatch);
    }
    var cells := RowCells(row.members, schema.columns);
    if cells.Err? {
      return Err(cells.error);
    }
    var fault := ValidateValues(cells.value, schema.columns, lexicon);
    if fault.Some? {
      return Err(fault.value);
    }
    var line := EncodeRow(cells.value);
    return Ok(line + "\r\n");
  }

  method WriteTabularCsv(schema: Schema, rows: seq<Json>, lexicon: Lexicon)
    returns (r: Result<seq<Utf8.Byte>, ImportError>)
    ensures r == Written(schema, rows, lexicon)
  {
    var fault := ValidateSchema(schema, DEFAULT_MAX_COLUMNS);
    if fault.Some? {
      return Err(fault.value);
    }
    if |rows| > DEFAULT_MAX_ROWS {
      return Err(RowLimitExceeded);
    }
    var header := EncodeRow(Names(schema));
    var output := header + "\r\n";
    ghost var done: Table := [Names(schema)];
    assert output == Records(done);
    for i := 0 to |rows|
      invariant output == Records(done)
      invariant After(done, TableText(rows[i..], schema, lexicon))
             == After([Names(schema)], TableText(rows, schema, lexicon))
    {
      AfterRow(done, rows[i..], schema, lexicon);
      assert rows[i..][0] == rows[i] && rows[i..][1..] == rows[i + 1..];
      var line := WriteRow(rows[i], schema, lexicon);
      if line.Err? {
        return Err(line.error);
      }
      ghost var cells := RowText(rows[i], schema, lexicon).value;
      RecordsAppend(done, cells);
      output := output + line.value;
      done := done + [cells];
    }
    assert done + [] == done;
    return Ok(Utf8.Encode(output));
  }

  ghost function After(done: Table, rest: Result<Table, ImportError>): Result<Table, ImportError> {
    match rest
    case Err(e) => Err(e)
    case Ok(table) => Ok(done + table)
  }

  lemma AfterRow(done: Table, rows: seq<Json>, schema: Schema, lexicon: Lexicon)
    requires rows != []
    ensures After(done, TableText(rows, schema, lexicon)) ==
            match RowText(rows[0], schema, lexicon)
            case Err(e) => Err(e)
            case Ok(cells) => After(done + [cells], TableText(rows[1..], schema, lexicon))
  {
    var first, rest := RowText(rows[0], schema, lexicon), TableText(rows[1..], schema, lexicon);
    if first.Ok? && rest.Ok? {
      assert done + ([first.value] + rest.value) == (done + [first.value]) + rest.value;
    }
  }

  lemma {:induction false} RecordsAppend(table: Table, row: seq<string>)
    ensures Records(table + [row]) == Records(table) + Line(row)
  {
    if |table| == 0 {
      assert (table + [row])[1..] == [];
    } else {
      RecordsAppend(table[1..], row);
      assert (table + [row])[1..] == table[1..] + [row];
      Regroup(Line(table[0]), Records(table[1..]), Line(row));
    }
  }

  // ---------- the parser ----------

  datatype Context = Context(schema: Schema, maxRows: nat, lexicon: Lexicon)

  datatype Parser = Parser(
    rows: Table, row: seq<string>, field: string,
    quoted: bool, fieldStarted: bool, endedRecord: bool, headerSeen: bool)

  const START := Parser([], [], "", false, false, false, false)

  /** Characters one step consumes: two for a doubled quote inside quotes and for CRLF outside them. */
  function Width(p: Parser, text: string): (w: nat)
    requires text != ""
    ensures 1 <= w <= |text|
  {
    if |text| < 2 then 1
    else if p.quoted then if text[0] == '"' && text[1] == '"' then 2 else 1
    else if text[0] == '\r' && text[1] == '\n' then 2 else 1
  }

  /** A record of these cells has just ended. */
  ghost function EndRecord(rows: Table, headerSeen: bool, row: seq<string>, cx: Context): Result<Parser, ImportError> {
    if |row| != |cx.schema.columns| then Err(FieldCountMismatch)
    else if !headerSeen then
      if row != Names(cx.schema) then Err(HeaderMismatch) else Ok(Parser(rows, [], "", false, false, true, true))
    else
      match CellFault(row, cx.schema.columns, cx.lexicon)
      case Some(e) => Err(e)
      case None =>
        if |rows| + 1 > cx.maxRows then Err(RowLimitExceeded)
        else Ok(Parser(rows + [row], [], "", false, false, true, true))
  }

  ghost function Step(p: Parser, text: string, cx: Context): Result<Parser, ImportError>
    requires text != ""
  {
    var c := text[0];
    if p.quoted then
      if c == '"' then Ok(if Width(p, text) == 2 then p.(field := p.field + "\"") else p.(quoted := false))
      else if c == '\r' || c == '\n' then Err(EmbeddedNewline)
      else Ok(p.(field := p.field + [c]))
    else if c == '"' then
      if p.fieldStarted then Err(QuoteInsideField) else Ok(p.(quoted := true, fieldStarted := true))
    else if c == ',' then Ok(p.(row := p.row + [p.field], field := "", fieldStarted := false))
    else if Width(p, text) == 2 then EndRecord(p.rows, p.headerSeen, p.row + [p.field], cx)
    else if c == '\n' then Err(BareLineFeed)
    else Ok(p.(field := p.field + [c], fieldStarted := true, endedRecord := false))
  }

  ghost function Run(p: Parser, text: string, cx: Context): Result<Table, ImportError>
    decreases |text|
  {
    if |text| == 0 then
      if p.quoted || !p.endedRecord || p.row != [] || p.field != "" then Err(MissingFinalCrlf) else Ok(p.rows)
    else
      match Step(p, text, cx)
      case Err(e) => Err(e)
      case Ok(q) => Run(q, text[Width(p, text)..], cx)
  }

  ghost function Parsed(bytes: seq<Utf8.Byte>, cx: Context): Result<Table, ImportError> {
    if Utf8.BOM <= bytes then Err(ByteOrderMark)
    else
      match Utf8.Decode(bytes)
      case None => Err(NotUtf8)
      case Some(text) => Run(START, text, cx)
  }

  ghost function Decoded(bytes: seq<Utf8.Byte>, schema: Schema, limits: Limits, lexicon: Lexicon): Result<Table, ImportError> {
    match SchemaFault(schema, limits.maxColumns)
    case Some(e) => Err(e)
    case None => Parsed(bytes, Context(schema, limits.maxRows, lexicon))
  }

  method ParseCsv(bytes: seq<Utf8.Byte>, cx: Context) returns (r: Result<Table, ImportError>)
    ensures r == Parsed(bytes, cx)
  {
    if Utf8.BOM <= bytes {
      return Err(ByteOrderMark);
    }
    var text := Utf8.Decode(bytes);
    if text.None? {
      return Err(NotUtf8);
    }
    var chars := text.value;
    var rows: Table := [];
    var row: seq<string> := [];
    var field := "";
    var quoted, fieldStarted, endedRecord, headerSeen := false, false, false, false;
    var index := 0;
    while index < |chars|
      invariant 0 <= index <= |chars|
      invariant Run(Parser(rows, row, field, quoted, fieldStarted, endedRecord, headerSeen), chars[index..], cx)
             == Run(START, chars, cx)
    {
      ghost var p := Parser(rows, row, field, quoted, fieldStarted, endedRecord, headerSeen);
      ghost var unread := chars[index..];
      assert index + 1 < |chars| ==> unread[1] == chars[index + 1];
      assert chars[index + Width(p, unread)..] == unread[Width(p, unread)..];
      var character := chars[index];
      if quoted {
        if character == '"' && index + 1 < |chars| && chars[index + 1] == '"' {
          field := field + "\"";
          index := index + 2;
        } else if character == '"' {
          quoted := false;
          index := index + 1;
        } else if character == '\r' || character == '\n' {
          return Err(EmbeddedNewline);
        } else {
          field := field + [character];
          index := index + 1;
        }
        continue;
      }
      if character == '"' && !fieldStarted {
        quoted := true;
        fieldStarted := true;
        index := index + 1;
      } else if character == '"' {
        return Err(QuoteInsideField);
      } else if character == ',' {
        row := row + [field];
        field := "";
        fieldStarted := false;
        index := index + 1;
      } else if character == '\r' && index + 1 < |chars| && chars[index + 1] == '\n' {
        row := row + [field];
        field := "";
        if |row| != |cx.schema.columns| {
          return Err(FieldCountMismatch);
        }
        if !headerSeen {
          if row != Names(cx.schema) {
            return Err(HeaderMismatch);
          }
          headerSeen := true;
        } else {
          var fault := ValidateValues(row, cx.schema.columns, cx.lexicon);
          if fault.Some? {
            return Err(fault.value);
          }
          rows := rows + [row];
          if |rows| > cx.maxRows {
            return Err(RowLimitExceeded);
          }
        }
        row := [];
        fieldStarted := false;
        endedRecord := true;
        index := index + 2;
      } else if character == '\n' {
        return Err(BareLineFeed);
      } else {
        field := field + [character];
        fieldStarted := true;
        endedRecord := false;
        index := index + 1;
      }
    }
    if quoted || !endedRecord || row != [] || field != "" {
      return Err(MissingFinalCrlf);
    }
    return Ok(rows);
  }

  method DecodeTabularCsv(bytes: seq<Utf8.Byte>, schema: Schema, limits: Limits, lexicon: Lexicon)
    returns (r: Result<Table, ImportError>)
    ensures r == Decoded(bytes, schema, limits, lexicon)
  {
    var fault := ValidateSchema(schema, limits.maxColumns);
    if fault.Some? {
      return Err(fault.value);
    }
    r := ParseCsv(bytes, Context(schema, limits.maxRows, lexicon));
  }
}
