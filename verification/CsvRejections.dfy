/** Why the CSV parser and printer refuse what they refuse. */
module CsvRejections {
  import opened Wrappers
  import opened Sequences
  import opened JsonValue
  import opened TabularCsv
  import opened CsvRoundTrip
  import opened CsvImage
  import opened CsvMeaning
  import Utf8

  // ---------- cells ----------

  lemma ValidCellExactly(text: string, columnType: ColumnType, lexicon: Lexicon)
    ensures ValidCell(text, columnType, lexicon) <==> TextAllowed(text, columnType, lexicon)
  {
    CellTextMeans(String(text), columnType, lexicon);
  }

  /** The first cell that its column does not allow. */
  ghost predicate FirstBad(cells: seq<string>, columns: seq<Column>, lexicon: Lexicon, j: nat) {
    j < |cells| && j < |columns| && !TextAllowed(cells[j], columns[j].columnType, lexicon) &&
    forall i :: 0 <= i < j ==> TextAllowed(cells[i], columns[i].columnType, lexicon)
  }

  ghost predicate AllGood(cells: seq<string>, columns: seq<Column>, lexicon: Lexicon) {
    |cells| == |columns| && forall i :: 0 <= i < |cells| ==> TextAllowed(cells[i], columns[i].columnType, lexicon)
  }

  lemma {:induction false} FaultIsFirstBad(cells: seq<string>, columns: seq<Column>, lexicon: Lexicon)
    requires |cells| == |columns|
    ensures match CellFault(cells, columns, lexicon)
            case None => AllGood(cells, columns, lexicon)
            case Some(e) => exists j: nat ::
              FirstBad(cells, columns, lexicon, j) && e == InvalidCell(columns[j].columnType, columns[j].name)
    decreases |cells|
  {
    hide ValidCell, TextAllowed;
    if |cells| > 0 {
      ValidCellExactly(cells[0], columns[0].columnType, lexicon);
      if ValidCell(cells[0], columns[0].columnType, lexicon) {
        FaultIsFirstBad(cells[1..], columns[1..], lexicon);
        if CellFault(cells, columns, lexicon).Some? {
          var e := CellFault(cells, columns, lexicon).value;
          var j: nat :| FirstBad(cells[1..], columns[1..], lexicon, j) &&
                        e == InvalidCell(columns[1..][j].columnType, columns[1..][j].name);
          forall i | 0 <= i < j + 1 ensures TextAllowed(cells[i], columns[i].columnType, lexicon) {
            if i > 0 { assert cells[i] == cells[1..][i - 1] && columns[i] == columns[1..][i - 1]; }
          }
          assert FirstBad(cells, columns, lexicon, j + 1);
        } else {
          forall i | 0 <= i < |cells| ensures TextAllowed(cells[i], columns[i].columnType, lexicon) {
            if i > 0 { assert cells[i] == cells[1..][i - 1] && columns[i] == columns[1..][i - 1]; }
          }
        }
      } else {
        assert FirstBad(cells, columns, lexicon, 0);
      }
    }
  }

  // ---------- the parser ----------

  predicate AtCrlf(w: Reading, rest: string) {
    !w.open && |rest| >= 2 && rest[0] == '\r' && rest[1] == '\n'
  }

  /** What is wrong with the text ahead when so much has been read. */
  ghost predicate Complains(w: Reading, rest: string, e: ImportError, cx: Context) {
    var cells, columns := Values(w.fields + [w.current]), cx.schema.columns;
    match e
    case EmbeddedNewline => w.open && rest != "" && (rest[0] == '\r' || rest[0] == '\n')
    case QuoteInsideField => !w.open && rest != "" && rest[0] == '"' && w.current != Plain("")
    case BareLineFeed => !w.open && rest != "" && rest[0] == '\n'
    case FieldCountMismatch => AtCrlf(w, rest) && |cells| != |columns|
    case HeaderMismatch =>
      AtCrlf(w, rest) && |cells| == |columns| && w.document == [] &&
      exists j :: 0 <= j < |columns| && cells[j] != columns[j].name
    case InvalidCell(columnType, name) =>
      AtCrlf(w, rest) && |cells| == |columns| && w.document != [] &&
      exists j: nat :: FirstBad(cells, columns, cx.lexicon, j) && e == InvalidCell(columns[j].columnType, columns[j].name)
    case RowLimitExceeded =>
      AtCrlf(w, rest) && w.document != [] && AllGood(cells, columns, cx.lexicon) && |w.document| > cx.maxRows
    case MissingFinalCrlf =>
      rest == "" && (w.open || w.fields != [] || w.current.Value() != "" || w.document == [])
    case _ => false
  }

  /** With whole records read and nothing behind them the last thing read was the end of a record. */
  ghost predicate KnowsEnd(p: Parser, w: Reading) {
    w.document != [] && w.fields == [] && w.current.Value() == "" ==> p.endedRecord
  }

  lemma StepKnowsEnd(p: Parser, w: Reading, text: string, cx: Context)
    requires text != "" && Reads(p, w, cx) && KnowsEnd(p, w) && Step(p, text, cx).Ok?
    ensures KnowsEnd(Step(p, text, cx).value, Next(w, text, Width(p, text)))
  {
    hide IsDocument, AllAllowed, FieldText.Allowed, TableOf, CellFault;
  }

  lemma RecordRefused(p: Parser, w: Reading, text: string, cx: Context)
    requires Reads(p, w, cx) && AtCrlf(w, text) && Step(p, text, cx).Err?
    ensures Complains(w, text, Step(p, text, cx).error, cx)
  {
    hide IsDocument, AllAllowed, FieldText.Allowed, TextAllowed, CellFault, FirstBad, AllGood, ValidCell;
    var cells := Values(w.fields + [w.current]);
    assert cells == p.row + [p.field];
    assert w.document != [] ==> |TableOf(w.document)| == 1 + |p.rows|;
    if |cells| == |cx.schema.columns| {
      if w.document == [] {
        DifferentNames(cells, cx.schema);
      } else {
        FaultIsFirstBad(cells, cx.schema.columns, cx.lexicon);
      }
    }
  }

  lemma DifferentNames(cells: seq<string>, schema: Schema)
    requires |cells| == |schema.columns|
    ensures cells != Names(schema) <==> exists j :: 0 <= j < |schema.columns| && cells[j] != schema.columns[j].name
  {
    if forall j :: 0 <= j < |schema.columns| ==> cells[j] == schema.columns[j].name {
      assert cells == Names(schema);
    }
  }

  lemma StepRefused(p: Parser, w: Reading, text: string, cx: Context)
    requires text != "" && Reads(p, w, cx) && Step(p, text, cx).Err?
    ensures Complains(w, text, Step(p, text, cx).error, cx)
  {
    hide IsDocument, AllAllowed, FieldText.Allowed, TableOf, CellFault, EndRecord;
    if AtCrlf(w, text) {
      RecordRefused(p, w, text, cx);
    }
  }

  lemma EndRefused(p: Parser, w: Reading, cx: Context)
    requires Reads(p, w, cx) && KnowsEnd(p, w) && Run(p, "", cx).Err?
    ensures Complains(w, "", Run(p, "", cx).error, cx)
  {
    hide IsDocument, AllAllowed, FieldText.Allowed, TableOf;
    assert |Values(w.fields)| == |w.fields|;
  }

  /** Where the parser gives up it has read everything so far as records and fields, and its complaint is true there. */
  lemma {:induction false} RejectedForAReason(p: Parser, w: Reading, text: string, cx: Context) returns (v: Reading, rest: string)
    requires Reads(p, w, cx) && KnowsEnd(p, w) && Run(p, text, cx).Err?
    ensures IsDocument(v.document) && v.Text() + rest == w.Text() + text && Complains(v, rest, Run(p, text, cx).error, cx)
    decreases |text|
  {
    hide Step, Next, Reading.Text, Width, AllAllowed, FieldText.Value, FieldText.Allowed, TableOf, Complains, KnowsEnd;
    v, rest := w, text;
    if |text| == 0 {
      EndRefused(p, w, cx);
    } else if Step(p, text, cx).Err? {
      StepRefused(p, w, text, cx);
    } else {
      var width := Width(p, text);
      StepIsRead(p, w, text, cx);
      StepKnowsEnd(p, w, text, cx);
      v, rest := RejectedForAReason(Step(p, text, cx).value, Next(w, text, width), text[width..], cx);
      assert text == text[..width] + text[width..];
      Regroup(w.Text(), text[..width], text[width..]);
    }
  }

  /** Every text that is not accepted reads up to some place as records and fields, and the error is about what follows. */
  lemma RejectionsHaveReasons(text: string, cx: Context) returns (v: Reading, rest: string)
    requires Run(START, text, cx).Err?
    ensures IsDocument(v.document) && text == v.Text() + rest && Complains(v, rest, Run(START, text, cx).error, cx)
  {
    hide Run, Complains, Reads;
    StartsReading(cx);
    v, rest := RejectedForAReason(START, NOTHING_READ, text, cx);
    assert NOTHING_READ.Text() + text == text;
  }

  // ---------- schemas, rows and bytes ----------

  /** What is wrong with the schema, in the order it is looked for. */
  ghost predicate SchemaComplains(schema: Schema, maxColumns: nat, e: ImportError) {
    var badProfile := schema.profile != "queryfabric.tabular-csv/1" || |schema.columns| == 0;
    match e
    case BadProfile => badProfile
    case TooManyColumns => !badProfile && |schema.columns| > maxColumns
    case BadColumnName => !badProfile && |schema.columns| <= maxColumns && !SchemaAllowed(schema, maxColumns)
    case _ => false
  }

  lemma SchemaRefused(schema: Schema, maxColumns: nat)
    ensures match SchemaFault(schema, maxColumns)
            case None => SchemaAllowed(schema, maxColumns)
            case Some(e) => SchemaComplains(schema, maxColumns, e)
  {
    SchemaFaultless(schema, maxColumns);
  }

  /** Values that are written as some text, valid or not. */
  predicate HasText(value: Json, columnType: ColumnType) {
    value.String? || (value.Number? && (columnType == Int64Type || columnType == Float64Type)) ||
    (value.Bool? && columnType == BooleanType)
  }

  /** The first column, up to this one, whose value has no text. */
  ghost predicate FirstWithoutText(members: seq<Member>, columns: seq<Column>, j: nat)
    requires forall i :: 0 <= i < |columns| ==> HasKey(members, columns[i].name)
  {
    j < |columns| && !HasText(Lookup(members, columns[j].name), columns[j].columnType) &&
    forall i :: 0 <= i < j ==> HasText(Lookup(members, columns[i].name), columns[i].columnType)
  }

  ghost predicate RowComplains(row: Json, columns: seq<Column>, lexicon: Lexicon, e: ImportError) {
    match e
    case RowNotAnObject => !row.Object?
    case RowFieldsMismatch => row.Object? && !NamesAreColumns(row.members, columns)
    case NullNotAllowed =>
      IsRow(row, columns) && exists j: nat ::
        (FirstWithoutText(row.members, columns, j) && Lookup(row.members, columns[j].name).Null?)
    case CellTypeMismatch =>
      IsRow(row, columns) && exists j: nat ::
        (FirstWithoutText(row.members, columns, j) && !Lookup(row.members, columns[j].name).Null?)
    case InvalidCell(_, _) =>
      IsRow(row, columns) && exists cells: seq<string>, j: nat ::
        (CellsMean(cells, row, columns) && FirstBad(cells, columns, lexicon, j) &&
         e == InvalidCell(columns[j].columnType, columns[j].name))
    case _ => false
  }

  lemma {:induction false} CellsRefused(members: seq<Member>, columns: seq<Column>)
    requires forall j :: 0 <= j < |columns| ==> HasKey(members, columns[j].name)
    requires RowCells(members, columns).Err?
    ensures exists j: nat :: FirstWithoutText(members, columns, j) &&
              RowCells(members, columns).error ==
              if Lookup(members, columns[j].name).Null? then NullNotAllowed else CellTypeMismatch
    decreases |columns|
  {
    hide Lookup, HasKey;
    if CellText(Lookup(members, columns[0].name), columns[0].columnType).Err? {
      assert FirstWithoutText(members, columns, 0);
    } else {
      var rest := columns[1..];
      CellsRefused(members, rest);
      var j: nat :| FirstWithoutText(members, rest, j) &&
        RowCells(members, rest).error == if Lookup(members, rest[j].name).Null? then NullNotAllowed else CellTypeMismatch;
      forall i | 0 <= i < j + 1 ensures HasText(Lookup(members, columns[i].name), columns[i].columnType) {
        if i > 0 { assert columns[i] == rest[i - 1]; }
      }
      assert FirstWithoutText(members, columns, j + 1);
    }
  }

  lemma RowRefused(row: Json, schema: Schema, lexicon: Lexicon)
    requires RowText(row, schema, lexicon).Err?
    ensures RowComplains(row, schema.columns, lexicon, RowText(row, schema, lexicon).error)
  {
    hide CellText, Lookup, HasKey, CellFault, TextAllowed, ValidCell, FirstBad, FirstWithoutText, Means, NamesAreColumns, FieldsMatch;
    if row.Object? {
      FieldsAreNames(row.members, schema.columns);
      if FieldsMatch(row.members, schema.columns) {
        KeysAreThere(row.members, schema.columns);
        var cells := RowCells(row.members, schema.columns);
        if cells.Err? {
          CellsRefused(row.members, schema.columns);
        } else {
          FaultIsFirstBad(cells.value, schema.columns, lexicon);
          CellsOfRowMean(row, schema.columns, lexicon);
        }
      }
    }
  }

  lemma KeysAreThere(members: seq<Member>, columns: seq<Column>)
    requires NamesAreColumns(members, columns)
    ensures forall j :: 0 <= j < |columns| ==> HasKey(members, columns[j].name)
  {
  }

  lemma CellsOfRowMean(row: Json, columns: seq<Column>, lexicon: Lexicon)
    requires IsRow(row, columns) && RowCells(row.members, columns).Ok?
    ensures CellsMean(RowCells(row.members, columns).value, row, columns)
  {
    hide CellText, Lookup, Means, ValidCell, ValueAllowed;
    forall j | 0 <= j < |columns|
      ensures Means(RowCells(row.members, columns).value[j], Lookup(row.members, columns[j].name), columns[j].columnType)
    {
      CellTextMeans(Lookup(row.members, columns[j].name), columns[j].columnType, lexicon);
    }
  }

  lemma {:induction false} FirstRowRefused(rows: seq<Json>, schema: Schema, lexicon: Lexicon) returns (i: nat)
    requires TableText(rows, schema, lexicon).Err?
    ensures i < |rows| && RowComplains(rows[i], schema.columns, lexicon, TableText(rows, schema, lexicon).error)
    ensures forall k :: 0 <= k < i ==> RowAllowed(rows[k], schema.columns, lexicon)
    decreases |rows|
  {
    hide RowText, RowComplains, RowAllowed;
    RowMeans(rows[0], schema, lexicon);
    if RowText(rows[0], schema, lexicon).Err? {
      i := 0;
      RowRefused(rows[0], schema, lexicon);
    } else {
      var j := FirstRowRefused(rows[1..], schema, lexicon);
      i := j + 1;
      assert forall k :: 0 < k < i ==> rows[k] == rows[1..][k - 1];
    }
  }

  /** Writing is refused for the schema, for the number of rows, or for the first row that is not allowed. */
  lemma WritingRefused(schema: Schema, rows: seq<Json>, lexicon: Lexicon)
    requires Written(schema, rows, lexicon).Err?
    ensures var e := Written(schema, rows, lexicon).error;
            if !SchemaAllowed(schema, 128) then SchemaComplains(schema, 128, e)
            else if |rows| > 5_000_000 then e == RowLimitExceeded
            else exists i :: 0 <= i < |rows| && RowComplains(rows[i], schema.columns, lexicon, e) &&
                   forall k :: 0 <= k < i ==> RowAllowed(rows[k], schema.columns, lexicon)
  {
    hide TableText, RowAllowed, RowComplains, SchemaAllowed, SchemaComplains, SchemaFault;
    SchemaRefused(schema, DEFAULT_MAX_COLUMNS);
    SchemaFaultless(schema, DEFAULT_MAX_COLUMNS);
    if SchemaAllowed(schema, 128) && |rows| <= 5_000_000 {
      var i := FirstRowRefused(rows, schema, lexicon);
    }
  }

  /** Reading is refused for the schema, for a byte order mark, for bytes that are no UTF-8, or as the text is. */
  lemma DecodingRefused(bytes: seq<Utf8.Byte>, schema: Schema, limits: Limits, lexicon: Lexicon)
    requires Decoded(bytes, schema, limits, lexicon).Err?
    ensures var e := Decoded(bytes, schema, limits, lexicon).error;
            if !SchemaAllowed(schema, limits.maxColumns) then SchemaComplains(schema, limits.maxColumns, e)
            else if |bytes| >= 3 && bytes[0] == 0xEF && bytes[1] == 0xBB && bytes[2] == 0xBF then e == ByteOrderMark
            else
              (e == NotUtf8 && forall text: string :: Utf8.Encode(text) != bytes) ||
              exists v: Reading, rest: string :: IsDocument(v.document) && Utf8.Encode(v.Text() + rest) == bytes &&
                Complains(v, rest, e, Context(schema, limits.maxRows, lexicon))
  {
    hide Run, Complains, SchemaAllowed, SchemaComplains, SchemaFault, Utf8.Encode, Utf8.Decode;
    SchemaRefused(schema, limits.maxColumns);
    SchemaFaultless(schema, limits.maxColumns);
    var cx := Context(schema, limits.maxRows, lexicon);
    assert Utf8.BOM <= bytes <==> |bytes| >= 3 && bytes[0] == 0xEF && bytes[1] == 0xBB && bytes[2] == 0xBF;
    if SchemaAllowed(schema, limits.maxColumns) && !(Utf8.BOM <= bytes) {
      match Utf8.Decode(bytes)
      case None =>
        forall text: string ensures Utf8.Encode(text) != bytes { Utf8.RoundTrip(text); }
      case Some(text) =>
        Utf8.DecodedIsText(bytes);
        var v, rest := RejectionsHaveReasons(text, cx);
    }
  }

  /** The bytes accepted as a given table, exactly. */
  lemma AcceptedBytesExactly(bytes: seq<Utf8.Byte>, table: Table, schema: Schema, limits: Limits, lexicon: Lexicon)
    ensures var cx := Context(schema, limits.maxRows, lexicon);
            Decoded(bytes, schema, limits, lexicon) == Ok(table) <==>
            SchemaAllowed(schema, limits.maxColumns) && !(Utf8.BOM <= bytes) && Accepts(cx, table) &&
            exists text, document, trailing :: Utf8.Encode(text) == bytes && Spells(text, document, trailing, table, cx)
  {
    hide Run, Spells, Accepts, SchemaAllowed, SchemaFault, Utf8.Encode, Utf8.Decode;
    var cx := Context(schema, limits.maxRows, lexicon);
    SchemaFaultless(schema, limits.maxColumns);
    if Utf8.Decode(bytes).Some? {
      Utf8.DecodedIsText(bytes);
      AcceptedTextsExactly(Utf8.Decode(bytes).value, table, cx);
    }
    forall text: string | Utf8.Encode(text) == bytes ensures Utf8.Decode(bytes) == Some(text) { Utf8.RoundTrip(text); }
  }
}
