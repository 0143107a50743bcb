/** Exactly which texts the CSV parser accepts as a given table, its leniencies included. */
module CsvImage {
  import opened CsvRoundTrip
  import opened Sequences
  import opened TabularCsv
  import opened Wrappers

  /** A field as it may be written: plain, or a quoted part with plain characters behind it. */
  datatype FieldText = Plain(text: string) | Quoted(inside: string, after: string) {
    function Text(): string {
      match this
      case Plain(text) => text
      case Quoted(inside, after) => "\"" + (DoubleQuotes(inside) + ("\"" + after))
    }

    function Value(): string {
      match this
      case Plain(text) => text
      case Quoted(inside, after) => inside + after
    }

    predicate Allowed() {
      match this
      case Plain(text) => IsPlain(text)
      case Quoted(inside, after) => !HasNewline(inside) && IsPlain(after)
    }
  }

  /** Commas, quotes and line feeds end plain text; a carriage return does not. */
  predicate IsPlain(s: string) {
    forall i :: 0 <= i < |s| ==> s[i] != ',' && s[i] != '"' && s[i] != '\n'
  }

  type RecordText = seq<FieldText>

  /** Fields with a comma behind each. */
  function FieldsText(fields: seq<FieldText>): string {
    if |fields| == 0 then "" else FieldsText(fields[..|fields| - 1]) + (fields[|fields| - 1].Text() + ",")
  }

  function RecordOf(record: RecordText): string
    requires |record| > 0
  {
    FieldsText(record[..|record| - 1]) + (record[|record| - 1].Text() + "\r\n")
  }

  function DocumentText(document: seq<RecordText>): string
    requires forall i :: 0 <= i < |document| ==> |document[i]| > 0
  {
    if |document| == 0 then "" else DocumentText(document[..|document| - 1]) + RecordOf(document[|document| - 1])
  }

  function Values(fields: seq<FieldText>): (values: seq<string>)
    ensures |values| == |fields| && forall i :: 0 <= i < |fields| ==> values[i] == fields[i].Value()
  {
    seq(|fields|, i requires 0 <= i < |fields| => fields[i].Value())
  }

  function TableOf(document: seq<RecordText>): (table: Table)
    ensures |table| == |document| && forall i :: 0 <= i < |document| ==> table[i] == Values(document[i])
  {
    seq(|document|, i requires 0 <= i < |document| => Values(document[i]))
  }

  predicate AllAllowed(fields: seq<FieldText>) {
    forall i :: 0 <= i < |fields| ==> fields[i].Allowed()
  }

  predicate IsDocument(document: seq<RecordText>) {
    forall i :: 0 <= i < |document| ==> |document[i]| > 0 && AllAllowed(document[i])
  }

  /** The header and rows that the schema and the limit accept. */
  ghost predicate Accepts(cx: Context, table: Table) {
    |table| <= cx.maxRows && RowsConform(table, cx)
  }

  /** The text is this document, with a pair of quotes behind it or not, and it stands for the header and the table. */
  ghost predicate Spells(text: string, document: seq<RecordText>, trailing: bool, table: Table, cx: Context) {
    IsDocument(document) && text == DocumentText(document) + (if trailing then "\"\"" else "") &&
    TableOf(document) == [Names(cx.schema)] + table
  }

  // ---------- every such text is accepted ----------

  lemma TypesPlain(p: Parser, c: char, after: string, cx: Context)
    requires !p.quoted && IsPlain([c]) && (after == "" || after[0] != '\n')
    ensures Width(p, [c] + after) == 1 && ([c] + after)[1..] == after
    ensures Step(p, [c] + after, cx) == Ok(Typed(p, [c]))
  {
    assert IsPlain([c]) ==> [c][0] != ',' && [c][0] != '"' && [c][0] != '\n';
  }

  lemma {:induction false} ReadPlainText(p: Parser, text: string, rest: string, cx: Context)
    requires !p.quoted && IsPlain(text) && (rest == "" || rest[0] != '\n')
    ensures Run(p, text + rest, cx) == Run(Typed(p, text), rest, cx)
    decreases |text|
  {
    hide Step, Width;
    if |text| == 0 {
      assert text + rest == rest;
    } else {
      var c, tail := text[0], text[1..];
      assert text == [c] + tail && text + rest == [c] + (tail + rest);
      assert IsPlain([c]) && IsPlain(tail) && forall i :: 0 <= i < |tail| ==> tail[i] == text[i + 1];
      TypesPlain(p, c, tail + rest, cx);
      ReadPlainText(Typed(p, [c]), tail, rest, cx);
      TypedTwice(p, c, tail);
    }
  }

  /** The parser once the field is read, its separator still ahead. */
  function AfterText(p: Parser, field: FieldText): Parser {
    match field
    case Plain(text) => Typed(p, text)
    case Quoted(inside, after) => Typed(p.(field := inside, fieldStarted := true), after)
  }

  lemma ReadFieldText(p: Parser, field: FieldText, rest: string, cx: Context)
    requires FreshField(p) && field.Allowed() && rest != "" && (rest[0] == ',' || rest[0] == '\r')
    ensures Run(p, field.Text() + rest, cx) == Run(AfterText(p, field), rest, cx)
    ensures AfterText(p, field).field == field.Value() && !AfterText(p, field).quoted
  {
    hide Run, Step, DoubleQuotes;
    match field
    case Plain(text) =>
      ReadPlainText(p, text, rest, cx);
      assert "" + text == text;
    case Quoted(inside, after) =>
      var body := DoubleQuotes(inside) + ("\"" + (after + rest));
      QuotedFieldText(inside, after, rest);
      OpenQuote(p, body, cx);
      var q := p.(quoted := true, fieldStarted := true);
      assert after != "" ==> (after + rest)[0] == after[0] && after[0] != '"';
      ReadQuoted(q, inside, after + rest, cx);
      assert "" + inside == inside;
      ReadPlainText(p.(field := inside, fieldStarted := true), after, rest, cx);
  }

  lemma QuotedFieldText(inside: string, after: string, rest: string)
    ensures Quoted(inside, after).Text() + rest == "\"" + (DoubleQuotes(inside) + ("\"" + (after + rest)))
  {
    hide DoubleQuotes;
    var d := DoubleQuotes(inside);
    Regroup("\"", d + ("\"" + after), rest);
    Regroup(d, "\"" + after, rest);
    Regroup("\"", after, rest);
  }

  lemma OpenQuote(p: Parser, body: string, cx: Context)
    requires FreshField(p)
    ensures Run(p, "\"" + body, cx) == Run(p.(quoted := true, fieldStarted := true), body, cx)
  {
    assert ("\"" + body)[1..] == body;
  }

  /** Some fields read, with a comma behind each, one after the other. */
  function AfterFields(p: Parser, fields: seq<FieldText>): Parser {
    if |fields| == 0 then p
    else
      var q := AfterText(AfterFields(p, fields[..|fields| - 1]), fields[|fields| - 1]);
      q.(row := q.row + [q.field], field := "", fieldStarted := false)
  }

  lemma {:induction false} ReadFieldTexts(p: Parser, fields: seq<FieldText>, rest: string, cx: Context)
    requires FreshField(p) && AllAllowed(fields)
    ensures Run(p, FieldsText(fields) + rest, cx) == Run(AfterFields(p, fields), rest, cx)
    ensures var q := AfterFields(p, fields);
            FreshField(q) && q.row == p.row + Values(fields) && q.rows == p.rows && q.headerSeen == p.headerSeen
    decreases |fields|
  {
    hide Run, Step, FieldsText, AfterText, FieldText.Text, FieldText.Allowed;
    if |fields| == 0 {
      NoFieldsText(rest);
      assert fields == [] && p.row + Values(fields) == p.row;
    } else {
      var init, last := fields[..|fields| - 1], fields[|fields| - 1];
      var q := AfterFields(p, init);
      FieldsTextSplit(fields, rest);
      ReadFieldTexts(p, init, last.Text() + ("," + rest), cx);
      ReadFieldText(q, last, "," + rest, cx);
      ReadComma(AfterText(q, last), rest, cx);
      KeepsRows(q, last);
      assert p.row + Values(fields) == p.row + Values(init) + [last.Value()];
    }
  }

  lemma NoFieldsText(rest: string)
    ensures FieldsText([]) + rest == rest
  {
  }

  lemma FieldsTextSplit(fields: seq<FieldText>, rest: string)
    requires |fields| > 0
    ensures var init, last := fields[..|fields| - 1], fields[|fields| - 1];
            FieldsText(fields) + rest == FieldsText(init) + (last.Text() + ("," + rest))
  {
    hide FieldText.Text;
    var init, last := fields[..|fields| - 1], fields[|fields| - 1];
    FieldsTextLast(fields);
    Regroup(FieldsText(init), last.Text() + ",", rest);
    Regroup(last.Text(), ",", rest);
  }

  lemma FieldsTextLast(fields: seq<FieldText>)
    requires |fields| > 0
    ensures FieldsText(fields) == FieldsText(fields[..|fields| - 1]) + (fields[|fields| - 1].Text() + ",")
  {
    hide FieldText.Text;
  }

  lemma RecordSplit(record: RecordText, rest: string)
    requires |record| > 0
    ensures var init, last := record[..|record| - 1], record[|record| - 1];
            RecordOf(record) + rest == FieldsText(init) + (last.Text() + ("\r\n" + rest))
  {
    hide FieldsText, FieldText.Text;
    var init, last := record[..|record| - 1], record[|record| - 1];
    Regroup(FieldsText(init), last.Text() + "\r\n", rest);
    Regroup(last.Text(), "\r\n", rest);
  }

  lemma KeepsRows(p: Parser, field: FieldText)
    ensures var q := AfterText(p, field); q.rows == p.rows && q.row == p.row && q.headerSeen == p.headerSeen
  {
  }

  lemma ReadRecordText(p: Parser, record: RecordText, rest: string, cx: Context)
    requires FreshField(p) && p.row == [] && |record| > 0 && AllAllowed(record)
    ensures Run(p, RecordOf(record) + rest, cx) == Ended(p, Values(record), rest, cx)
  {
    hide Run, Step, EndRecord, FieldsText, AfterText, AfterFields, RecordOf, FieldText.Text, FieldText.Allowed;
    var init, last := record[..|record| - 1], record[|record| - 1];
    var crlf := "\r\n" + rest;
    var q := AfterFields(p, init);
    RecordSplit(record, rest);
    ReadFieldTexts(p, init, last.Text() + crlf, cx);
    ReadFieldText(q, last, crlf, cx);
    ReadCrlf(AfterText(q, last), rest, cx);
    KeepsRows(q, last);
    assert Values(record) == q.row + [last.Value()];
  }

  lemma EndsWell(rows: Table, row: seq<string>, rest: string, cx: Context)
    requires |row| == |cx.schema.columns| && CellFault(row, cx.schema.columns, cx.lexicon).None? && |rows| + 1 <= cx.maxRows
    ensures Ended(Boundary(rows), row, rest, cx) == Run(Boundary(rows + [row]), rest, cx)
  {
  }

  lemma HeaderEndsWell(rest: string, cx: Context)
    ensures Ended(START, Names(cx.schema), rest, cx) == Run(Boundary([]), rest, cx)
  {
  }

  /** Reading a document whose first record is the header and whose others conform. */
  lemma {:induction false} ReadDocumentText(document: seq<RecordText>, table: Table, rest: string, cx: Context)
    requires IsDocument(document) && Accepts(cx, table) && TableOf(document) == [Names(cx.schema)] + table
    ensures Run(START, DocumentText(document) + rest, cx) == Run(Boundary(table), rest, cx)
    decreases |document|
  {
    hide Run, Step, RecordOf, EndRecord, CellFault, Names, Values;
    var init, last := document[..|document| - 1], document[|document| - 1];
    assert Values(last) == TableOf(document)[|document| - 1];
    Regroup(DocumentText(init), RecordOf(last), rest);
    if |table| == 0 {
      assert init == [] && DocumentText(init) + (RecordOf(last) + rest) == RecordOf(last) + rest;
      ReadRecordText(START, last, rest, cx);
      HeaderEndsWell(rest, cx);
      assert table == [];
    } else {
      var before, row := table[..|table| - 1], table[|table| - 1];
      assert TableOf(init) == TableOf(document)[..|init|] == [Names(cx.schema)] + before;
      assert row == Values(last) && table == before + [row];
      ReadDocumentText(init, before, RecordOf(last) + rest, cx);
      ReadRecordText(Boundary(before), last, rest, cx);
      EndsWell(before, row, rest, cx);
    }
  }

  lemma TrailingQuotesEnd(rows: Table, cx: Context)
    ensures Run(Boundary(rows), "\"\"", cx) == Ok(rows) && Run(Boundary(rows), "", cx) == Ok(rows)
  {
    var p := Boundary(rows);
    var q := p.(quoted := true, fieldStarted := true);
    assert Step(p, "\"\"", cx) == Ok(q) && "\"\""[1..] == "\"";
    assert Step(q, "\"", cx) == Ok(q.(quoted := false)) && "\""[1..] == "";
  }

  lemma SpelledIsAccepted(text: string, document: seq<RecordText>, trailing: bool, table: Table, cx: Context)
    requires Spells(text, document, trailing, table, cx) && Accepts(cx, table)
    ensures Run(START, text, cx) == Ok(table)
  {
    hide Run, DocumentText, TableOf;
    ReadDocumentText(document, table, if trailing then "\"\"" else "", cx);
    TrailingQuotesEnd(table, cx);
  }

  // ---------- every accepted text is one of these ----------

  /** What has been read: whole records, fields of the next one, and the field the parser is in. */
  datatype Reading = Reading(document: seq<RecordText>, fields: seq<FieldText>, current: FieldText, open: bool) {
    /** The current field's text so far; while its quotes are open they end in nothing. */
    function CurrentText(): string {
      if open then "\"" + DoubleQuotes(current.Value()) else current.Text()
    }

    function Text(): string
      requires IsDocument(document)
    {
      DocumentText(document) + (FieldsText(fields) + CurrentText())
    }
  }

  const NOTHING_READ := Reading([], [], Plain(""), false)

  /** The parser's registers are what the reading says. */
  ghost predicate Reads(p: Parser, w: Reading, cx: Context) {
    IsDocument(w.document) && AllAllowed(w.fields) && w.current.Allowed() &&
    (w.open ==> w.current.Quoted? && w.current.after == "") &&
    p.quoted == w.open && p.fieldStarted == (w.current != Plain("")) && p.field == w.current.Value() &&
    p.row == Values(w.fields) && p.headerSeen == (w.document != []) && (p.endedRecord ==> w.document != []) &&
    (if w.document == [] then p.rows == [] else TableOf(w.document) == [Names(cx.schema)] + p.rows)
  }

  function More(field: FieldText, c: char): FieldText {
    match field
    case Plain(text) => Plain(text + [c])
    case Quoted(inside, after) => Quoted(inside, after + [c])
  }

  function Next(w: Reading, text: string, width: nat): Reading
    requires text != ""
  {
    var c := text[0];
    if w.open then
      if c == '"' && width == 1 then w.(open := false)
      else w.(current := Quoted(w.current.Value() + [c], ""))
    else if c == '"' then w.(current := Quoted("", ""), open := true)
    else if c == ',' then w.(fields := w.fields + [w.current], current := Plain(""))
    else if width == 2 then Reading(w.document + [w.fields + [w.current]], [], Plain(""), false)
    else w.(current := More(w.current, c))
  }

  lemma {:induction false} DoubleQuotesAppend(s: string, c: char)
    ensures DoubleQuotes(s + [c]) == DoubleQuotes(s) + (if c == '"' then "\"\"" else [c])
  {
    if s != "" {
      DoubleQuotesAppend(s[1..], c);
      assert (s + [c])[1..] == s[1..] + [c];
      Regroup(if s[0] == '"' then "\"\"" else [s[0]], DoubleQuotes(s[1..]), if c == '"' then "\"\"" else [c]);
    }
  }

  lemma MoreText(field: FieldText, c: char)
    requires field.Allowed() && IsPlain([c])
    ensures var more := More(field, c);
            more.Allowed() && more.Text() == field.Text() + [c] && more.Value() == field.Value() + [c] && more != Plain("")
  {
    hide DoubleQuotes, HasNewline;
    match field
    case Plain(text) =>
    case Quoted(inside, after) =>
      var d := DoubleQuotes(inside);
      Regroup("\"", after, [c]);
      Regroup(d, "\"" + after, [c]);
      Regroup("\"", d + ("\"" + after), [c]);
      Regroup(inside, after, [c]);
  }

  lemma NothingDoubled()
    ensures "\"" + DoubleQuotes("") == "\""
  {
  }

  /** What a step does to the current field alone. */
  lemma InField(p: Parser, w: Reading, text: string, cx: Context)
    requires text != "" && Reads(p, w, cx) && Step(p, text, cx).Ok?
    requires p.quoted || (text[0] != ',' && Width(p, text) == 1)
    ensures var v, q := Next(w, text, Width(p, text)), Step(p, text, cx).value;
            v.document == w.document && v.fields == w.fields && v.current.Allowed() &&
            (v.open ==> v.current.Quoted? && v.current.after == "") &&
            q == p.(field := v.current.Value(), fieldStarted := true, quoted := v.open,
                    endedRecord := q.endedRecord) && (q.endedRecord ==> p.endedRecord) &&
            v.current != Plain("") &&
            v.CurrentText() == w.CurrentText() + text[..Width(p, text)]
  {
    hide DoubleQuotes, Run;
    var c := text[0];
    if p.quoted {
      var inside := w.current.inside;
      assert inside + "" == inside;
      if c == '"' && Width(p, text) == 1 {
        Regroup("\"", DoubleQuotes(inside), "\"");
        assert "\"" + "" == "\"" && text[..1] == "\"";
      } else {
        DoubleQuotesAppend(inside, c);
        assert inside + [c] + "" == inside + [c];
        assert HasNewline(inside + [c]) ==> HasNewline(inside) || IsNewline(c);
        Regroup("\"", DoubleQuotes(inside), text[..Width(p, text)]);
        assert c == '"' ==> text[..2] == "\"\"";
        assert c != '"' ==> text[..1] == [c];
      }
    } else {
      assert text[..1] == [c];
      if c == '"' {
        NothingDoubled();
      } else {
        MoreText(w.current, c);
      }
    }
  }

  lemma StaysInField(p: Parser, w: Reading, text: string, cx: Context)
    requires text != "" && Reads(p, w, cx) && Step(p, text, cx).Ok?
    requires p.quoted || (text[0] != ',' && Width(p, text) == 1)
    ensures var v := Next(w, text, Width(p, text));
            Reads(Step(p, text, cx).value, v, cx) && v.Text() == w.Text() + text[..Width(p, text)]
  {
    hide Run, Step, Width, FieldsText, DocumentText, FieldText.Text, More, HasNewline, DoubleQuotes, TableOf;
    var v := Next(w, text, Width(p, text));
    InField(p, w, text, cx);
    Regroup(FieldsText(w.fields), w.CurrentText(), text[..Width(p, text)]);
    Regroup(DocumentText(w.document), FieldsText(w.fields) + w.CurrentText(), text[..Width(p, text)]);
  }

  lemma NothingInField(document: seq<RecordText>, fields: seq<FieldText>)
    requires IsDocument(document)
    ensures Reading(document, fields, Plain(""), false).Text() == DocumentText(document) + FieldsText(fields)
    ensures Reading(document, [], Plain(""), false).Text() == DocumentText(document)
  {
    hide DocumentText;
    assert FieldsText(fields) + "" == FieldsText(fields) && FieldsText([]) + "" == "";
    assert DocumentText(document) + "" == DocumentText(document);
  }

  lemma EndsFieldText(w: Reading)
    requires IsDocument(w.document) && !w.open
    ensures Reading(w.document, w.fields + [w.current], Plain(""), false).Text() == w.Text() + ","
  {
    hide FieldsText, DocumentText, FieldText.Text, AllAllowed;
    var fields := w.fields + [w.current];
    assert fields[..|fields| - 1] == w.fields;
    FieldsTextLast(fields);
    NothingInField(w.document, fields);
    Regroup(FieldsText(w.fields), w.current.Text(), ",");
    Regroup(DocumentText(w.document), FieldsText(w.fields) + w.CurrentText(), ",");
  }

  lemma EndsField(p: Parser, w: Reading, text: string, cx: Context)
    requires text != "" && Reads(p, w, cx) && !p.quoted && text[0] == ','
    ensures var v := Next(w, text, Width(p, text));
            Step(p, text, cx).Ok? && Reads(Step(p, text, cx).value, v, cx) && v.Text() == w.Text() + text[..Width(p, text)]
  {
    hide Run, FieldsText, DocumentText, FieldText.Text, FieldText.Allowed, TableOf, Reading.Text;
    assert text[..1] == ",";
    assert Values(w.fields + [w.current]) == Values(w.fields) + [w.current.Value()];
    EndsFieldText(w);
    FreshStart();
  }

  lemma DocumentTextLast(document: seq<RecordText>, record: RecordText)
    requires IsDocument(document) && |record| > 0 && AllAllowed(record)
    ensures IsDocument(document + [record])
    ensures DocumentText(document + [record]) == DocumentText(document) + RecordOf(record)
  {
    hide RecordOf;
    var all := document + [record];
    assert all[..|document|] == document && forall i :: 0 <= i < |document| ==> all[i] == document[i];
  }

  lemma EndsRecordText(w: Reading)
    requires IsDocument(w.document) && !w.open && AllAllowed(w.fields + [w.current])
    ensures var all := w.document + [w.fields + [w.current]];
            IsDocument(all) && Reading(all, [], Plain(""), false).Text() == w.Text() + "\r\n"
  {
    hide FieldsText, DocumentText, FieldText.Text, FieldText.Allowed;
    var record := w.fields + [w.current];
    assert record[..|record| - 1] == w.fields;
    DocumentTextLast(w.document, record);
    NothingInField(w.document + [record], []);
    Regroup(FieldsText(w.fields), w.current.Text(), "\r\n");
    Regroup(DocumentText(w.document), FieldsText(w.fields) + w.CurrentText(), "\r\n");
  }

  lemma CrlfAhead(p: Parser, text: string)
    requires text != "" && !p.quoted && Width(p, text) == 2
    ensures text[0] == '\r' && text[..2] == "\r\n"
  {
  }

  lemma EndsRecord(p: Parser, w: Reading, text: string, cx: Context)
    requires text != "" && Reads(p, w, cx) && !p.quoted && text[0] != ',' && Width(p, text) == 2 && Step(p, text, cx).Ok?
    ensures var v := Next(w, text, 2);
            Reads(Step(p, text, cx).value, v, cx) && v.Text() == w.Text() + text[..2]
  {
    hide Run, FieldsText, DocumentText, FieldText.Text, FieldText.Allowed, CellFault, Reading.Text, Width;
    var record := w.fields + [w.current];
    CrlfAhead(p, text);
    assert Values(record) == Values(w.fields) + [w.current.Value()];
    assert TableOf(w.document + [record]) == TableOf(w.document) + [Values(record)];
    EndsRecordText(w);
    FreshStart();
  }

  lemma FreshStart()
    ensures Plain("").Allowed() && Plain("").Value() == "" && AllAllowed([]) && Values([]) == []
  {
  }

  lemma StepIsRead(p: Parser, w: Reading, text: string, cx: Context)
    requires text != "" && Reads(p, w, cx) && Step(p, text, cx).Ok?
    ensures var v := Next(w, text, Width(p, text));
            Reads(Step(p, text, cx).value, v, cx) && v.Text() == w.Text() + text[..Width(p, text)]
  {
    hide Step, Reads, Next, Reading.Text;
    if p.quoted || (text[0] != ',' && Width(p, text) == 1) {
      StaysInField(p, w, text, cx);
    } else if text[0] == ',' {
      EndsField(p, w, text, cx);
    } else {
      EndsRecord(p, w, text, cx);
    }
  }

  /** Where reading may stop: behind a record, or behind a pair of quotes there. */
  lemma StopsWell(p: Parser, w: Reading, cx: Context)
    requires Reads(p, w, cx) && Run(p, "", cx).Ok?
    ensures Spells(w.Text(), w.document, w.current != Plain(""), p.rows, cx)
  {
    hide DocumentText, TableOf;
    assert |Values(w.fields)| == |w.fields|;
    assert w.fields == [] && !w.open && w.current.Value() == "";
    NothingDoubled();
    if w.current == Plain("") {
      NothingInField(w.document, []);
    } else {
      assert w.current == Quoted("", "");
      assert w.Text() == DocumentText(w.document) + "\"\"";
    }
  }

  lemma {:induction false} AcceptedIsSpelled(p: Parser, w: Reading, text: string, cx: Context)
    returns (document: seq<RecordText>, trailing: bool)
    requires Reads(p, w, cx) && Run(p, text, cx).Ok?
    ensures Spells(w.Text() + text, document, trailing, Run(p, text, cx).value, cx)
    decreases |text|
  {
    hide Step, Next, Reading.Text, Spells, Width, AllAllowed, FieldText.Value, FieldText.Allowed, TableOf;
    if |text| == 0 {
      StopsWell(p, w, cx);
      assert w.Text() + text == w.Text();
      document, trailing := w.document, w.current != Plain("");
    } else {
      var width := Width(p, text);
      StepIsRead(p, w, text, cx);
      document, trailing := AcceptedIsSpelled(Step(p, text, cx).value, Next(w, text, width), text[width..], cx);
      assert text == text[..width] + text[width..];
      Regroup(w.Text(), text[..width], text[width..]);
    }
  }

  /**
   The texts accepted as a given table, exactly: the header and the table's rows, each field plain or
   a quoted part with plain characters behind it, and a pair of quotes after the last record or none.
   */
  lemma AcceptedTextsExactly(text: string, table: Table, cx: Context)
    ensures Run(START, text, cx) == Ok(table) <==>
            Accepts(cx, table) && exists document, trailing :: Spells(text, document, trailing, table, cx)
  {
    hide Run, Spells, Reads;
    if Run(START, text, cx) == Ok(table) {
      RunKeepsConformance(START, text, cx);
      StartsReading(cx);
      var document, trailing := AcceptedIsSpelled(START, NOTHING_READ, text, cx);
      assert NOTHING_READ.Text() + text == text;
    }
    if Accepts(cx, table) {
      forall document, trailing | Spells(text, document, trailing, table, cx) ensures Run(START, text, cx) == Ok(table) {
        SpelledIsAccepted(text, document, trailing, table, cx);
      }
    }
  }

  lemma StartsReading(cx: Context)
    ensures Reads(START, NOTHING_READ, cx) && NOTHING_READ.Text() == ""
  {
  }
}
