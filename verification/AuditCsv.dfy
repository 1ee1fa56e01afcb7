/** CSV export of audit entries (plugins/audit-enterprise/src/routes.ts) and a reader for it.

    The reader follows section 2 of RFC 4180, with LF between records as the export writes it. */
module AuditCsv {
  import opened Common

  type Row = seq<string>

  /** A JSON value that no export column shows. */
  type Detail(==, !new)

  datatype Details = Details(actionDetail: Detail, dataAccessed: Detail, modelUsed: Option<string>,
                             modelTokens: Option<Detail>, policyReason: string)

  datatype Entry = Entry(id: string, tenantId: string, userId: string, timestamp: string, actionType: string,
                         dataClassification: string, policyApplied: string, policyResult: string,
                         outcome: string, requestId: string, details: Details)

  const CSV_HEADERS: Row := [
    "id", "tenant_id", "user_id", "timestamp", "action_type",
    "data_classification", "policy_applied", "policy_result", "outcome", "request_id"]

  function RowOf(e: Entry): Row {
    [e.id, e.tenantId, e.userId, e.timestamp, e.actionType,
     e.dataClassification, e.policyApplied, e.policyResult, e.outcome, e.requestId]
  }

  // ----- Writing -----

  function EscapeQuotes(s: string): string {
    if s == "" then ""
    else (if s[0] == '"' then "\"\"" else [s[0]]) + EscapeQuotes(s[1..])
  }

  function Quoted(s: string): string {
    "\"" + EscapeQuotes(s) + "\""
  }

  function Join(parts: seq<string>, separator: string): string {
    if parts == [] then ""
    else if |parts| == 1 then parts[0]
    else parts[0] + separator + Join(parts[1..], separator)
  }

  function QuotedAll(row: Row): seq<string> {
    if row == [] then [] else [Quoted(row[0])] + QuotedAll(row[1..])
  }

  function QuotedLine(row: Row): string {
    Join(QuotedAll(row), ",")
  }

  function QuotedLines(rows: seq<Row>): seq<string> {
    if rows == [] then [] else [QuotedLine(rows[0])] + QuotedLines(rows[1..])
  }

  /** The header line, its names unquoted, and one quoted line a row. */
  function ToCsv(rows: seq<Row>): string {
    Join([Join(CSV_HEADERS, ",")] + QuotedLines(rows), "\n")
  }

  function Rows(entries: seq<Entry>): seq<Row> {
    seq(|entries|, i requires 0 <= i < |entries| => RowOf(entries[i]))
  }

  function Export(entries: seq<Entry>): string {
    ToCsv(Rows(entries))
  }

  /** What a column of an entry is called. */
  function Column(e: Entry, name: string): string {
    if name == "id" then e.id else if name == "tenant_id" then e.tenantId else if name == "user_id" then e.userId
    else if name == "timestamp" then e.timestamp else if name == "action_type" then e.actionType
    else if name == "data_classification" then e.dataClassification else if name == "policy_applied" then e.policyApplied
    else if name == "policy_result" then e.policyResult else if name == "outcome" then e.outcome
    else if name == "request_id" then e.requestId else ""
  }

  /** Each value stands in the column of its name. */
  lemma ValuesUnderHeaders(e: Entry, k: nat)
    requires k < 10
    ensures |CSV_HEADERS| == 10 && |RowOf(e)| == 10 && RowOf(e)[k] == Column(e, CSV_HEADERS[k])
  {
  }

  lemma {:induction false} JoinSnoc(parts: seq<string>, part: string, separator: string)
    requires parts != []
    ensures Join(parts + [part], separator) == Join(parts, separator) + separator + part
  {
    var all := parts + [part];
    assert all[1..] == parts[1..] + [part];
    if |parts| > 1 {
      JoinSnoc(parts[1..], part, separator);
    }
  }

  lemma {:induction false} EscapeConcat(a: string, b: string)
    ensures EscapeQuotes(a + b) == EscapeQuotes(a) + EscapeQuotes(b)
  {
    if a == "" {
      assert a + b == b;
    } else {
      assert (a + b)[1..] == a[1..] + b;
      EscapeConcat(a[1..], b);
    }
  }

  lemma {:induction false} QuotedAllSnoc(row: Row, value: string)
    ensures QuotedAll(row + [value]) == QuotedAll(row) + [Quoted(value)]
  {
    var all := row + [value];
    if row == [] {
      assert all[1..] == [];
    } else {
      assert all[1..] == row[1..] + [value];
      QuotedAllSnoc(row[1..], value);
    }
  }

  /** How a line is written: every value in quotes, after a comma if it is not the first; and every quote in it
      twice. */
  lemma LineIsWritten(row: Row, value: string, a: string, b: string)
    ensures QuotedLine([value]) == "\"" + EscapeQuotes(value) + "\""
    ensures row != [] ==> QuotedLine(row + [value]) == QuotedLine(row) + "," + ("\"" + EscapeQuotes(value) + "\"")
    ensures '"' !in a ==> EscapeQuotes(a + "\"" + b) == a + "\"\"" + EscapeQuotes(b) && EscapeQuotes(a) == a
  {
    assert [value][1..] == [] && QuotedAll([value]) == [Quoted(value)];
    if row != [] {
      QuotedAllSnoc(row, value);
      JoinSnoc(QuotedAll(row), Quoted(value), ",");
    }
    if '"' !in a {
      PlainIsUnchanged(a);
      EscapeConcat(a + "\"", b);
      EscapeConcat(a, "\"");
      assert EscapeQuotes("\"") == "\"\"";
    }
  }

  lemma {:induction false} PlainIsUnchanged(a: string)
    requires '"' !in a
    ensures EscapeQuotes(a) == a
  {
    if a != "" {
      PlainIsUnchanged(a[1..]);
    }
  }

  lemma {:induction false} QuotedLinesSnoc(rows: seq<Row>, row: Row)
    ensures QuotedLines(rows + [row]) == QuotedLines(rows) + [QuotedLine(row)]
  {
    var all := rows + [row];
    if rows == [] {
      assert all[1..] == [];
    } else {
      assert all[1..] == rows[1..] + [row];
      QuotedLinesSnoc(rows[1..], row);
    }
  }

  /** How the text is written: the header line, and a line feed before the line of every row. */
  lemma TextIsWritten(rows: seq<Row>, row: Row)
    ensures ToCsv([]) == Join(CSV_HEADERS, ",")
    ensures ToCsv(rows + [row]) == ToCsv(rows) + "\n" + QuotedLine(row)
  {
    QuotedLinesSnoc(rows, row);
    var lines := [Join(CSV_HEADERS, ",")] + QuotedLines(rows);
    assert [Join(CSV_HEADERS, ",")] + QuotedLines(rows + [row]) == lines + [QuotedLine(row)];
    JoinSnoc(lines, QuotedLine(row), "\n");
  }

  // ----- Reading -----

  /** A field and the text after it. */
  datatype Scan = Scan(field: string, rest: string)

  /** The remainder of a quoted field, up to its closing quote; two quotes stand for one. */
  function ReadQuoted(s: string): Option<Scan> {
    if s == "" then None
    else if s[0] != '"' then
      match ReadQuoted(s[1..])
      case None => None
      case Some(r) => Some(Scan([s[0]] + r.field, r.rest))
    else if |s| > 1 && s[1] == '"' then
      match ReadQuoted(s[2..])
      case None => None
      case Some(r) => Some(Scan("\"" + r.field, r.rest))
    else Some(Scan("", s[1..]))
  }

  /** An unquoted field runs to the next comma, line feed or quote. */
  function ReadPlain(s: string): Scan {
    if s == "" || s[0] in ",\n\"" then Scan("", s)
    else
      var r := ReadPlain(s[1..]);
      Scan([s[0]] + r.field, r.rest)
  }

  function ReadField(s: string): Option<Scan> {
    if s != "" && s[0] == '"' then ReadQuoted(s[1..]) else Some(ReadPlain(s))
  }

  lemma {:induction false} ReadQuotedShortens(s: string)
    ensures ReadQuoted(s).Some? ==> |ReadQuoted(s).value.rest| < |s|
    decreases |s|
  {
    if s != "" {
      if s[0] != '"' {
        ReadQuotedShortens(s[1..]);
      } else if |s| > 1 && s[1] == '"' {
        ReadQuotedShortens(s[2..]);
      }
    }
  }

  lemma {:induction false} ReadPlainShortens(s: string)
    ensures |ReadPlain(s).rest| <= |s|
  {
    if s != "" && s[0] !in ",\n\"" {
      ReadPlainShortens(s[1..]);
    }
  }

  lemma ReadFieldShortens(s: string)
    ensures ReadField(s).Some? ==> |ReadField(s).value.rest| <= |s|
  {
    if s != "" && s[0] == '"' {
      ReadQuotedShortens(s[1..]);
    } else {
      ReadPlainShortens(s);
    }
  }

  /** Records from `s` on, given the fields already read of the current one. A comma continues the
      record, a line feed begins the next, and anything else after a field is an error. */
  function ReadRecords(s: string, fields: Row): Option<seq<Row>>
    decreases |s|
  {
    ReadFieldShortens(s);
    match ReadField(s)
    case None => None
    case Some(r) =>
      if r.rest == "" then Some([fields + [r.field]])
      else if r.rest[0] == ',' then ReadRecords(r.rest[1..], fields + [r.field])
      else if r.rest[0] == '\n' then
        match ReadRecords(r.rest[1..], [])
        case None => None
        case Some(records) => Some([fields + [r.field]] + records)
      else None
  }

  function Read(csv: string): Option<seq<Row>> {
    ReadRecords(csv, [])
  }

  // ----- Round trip -----

  /** A field is followed by the end, a comma or a line feed. */
  predicate EndsField(rest: string) {
    rest == "" || rest[0] == ',' || rest[0] == '\n'
  }

  /** One written character before a readable text is read as that character. */
  lemma ReadQuotedStep(c: char, tail: string)
    requires ReadQuoted(tail).Some?
    ensures ReadQuoted((if c == '"' then ['"', '"'] else [c]) + tail)
         == Some(Scan([c] + ReadQuoted(tail).value.field, ReadQuoted(tail).value.rest))
  {
    if c == '"' {
      assert (['"', '"'] + tail)[2..] == tail;
    } else {
      assert ([c] + tail)[1..] == tail;
    }
  }

  lemma EscapeStep(s: string, after: string)
    requires s != ""
    ensures EscapeQuotes(s) + after == (if s[0] == '"' then ['"', '"'] else [s[0]]) + (EscapeQuotes(s[1..]) + after)
  {
  }

  lemma {:induction false} ReadQuotedUndoesEscape(s: string, rest: string)
    requires EndsField(rest)
    ensures ReadQuoted(EscapeQuotes(s) + ("\"" + rest)) == Some(Scan(s, rest))
  {
    var after := "\"" + rest;
    assert after[1..] == rest;
    if s == "" {
      assert EscapeQuotes(s) + after == after;
    } else {
      ReadQuotedUndoesEscape(s[1..], rest);
      EscapeStep(s, after);
      ReadQuotedStep(s[0], EscapeQuotes(s[1..]) + after);
      assert s == [s[0]] + s[1..];
    }
  }

  lemma ReadQuotedField(s: string, rest: string)
    requires EndsField(rest)
    ensures ReadField(Quoted(s) + rest) == Some(Scan(s, rest))
  {
    ReadQuotedUndoesEscape(s, rest);
    assert (Quoted(s) + rest)[1..] == EscapeQuotes(s) + ("\"" + rest);
  }

  /** The name has no comma, line feed or quote. */
  predicate PlainName(s: string) {
    forall k :: 0 <= k < |s| ==> s[k] != ',' && s[k] != '\n' && s[k] != '"'
  }

  lemma {:induction false} ReadPlainField(s: string, rest: string)
    requires PlainName(s) && EndsField(rest)
    ensures ReadPlain(s + rest) == Scan(s, rest)
    ensures ReadField(s + rest) == Some(Scan(s, rest))
  {
    if s == "" {
      assert s + rest == rest;
    } else {
      assert (s + rest)[0] == s[0] && (s + rest)[1..] == s[1..] + rest;
      ReadPlainField(s[1..], rest);
      assert s == [s[0]] + s[1..];
    }
  }

  /** `field` is how `value` is written, whatever follows it. */
  ghost predicate Writes(field: string, value: string) {
    forall rest :: EndsField(rest) ==> ReadField(field + rest) == Some(Scan(value, rest))
  }

  ghost predicate WritesAll(fields: seq<string>, row: Row) {
    |fields| == |row| && forall i :: 0 <= i < |row| ==> Writes(fields[i], row[i])
  }

  lemma ReadStep(field: string, value: string, read: Row, more: string)
    requires Writes(field, value)
    ensures ReadRecords(field, read) == Some([read + [value]])
    ensures ReadRecords(field + "," + more, read) == ReadRecords(more, read + [value])
    ensures ReadRecords(field + "\n" + more, read) == Under(read + [value], ReadRecords(more, []))
  {
    assert field + "" == field;
    assert field + "," + more == field + ("," + more) && ("," + more)[1..] == more;
    assert field + "\n" + more == field + ("\n" + more) && ("\n" + more)[1..] == more;
    assert ReadField(field + "") == Some(Scan(value, ""));
    assert ReadField(field + ("," + more)) == Some(Scan(value, "," + more));
    assert ReadField(field + ("\n" + more)) == Some(Scan(value, "\n" + more));
  }

  /** A record before those of the following lines. */
  function Under(row: Row, records: Option<seq<Row>>): Option<seq<Row>> {
    if records.None? then None else Some([row] + records.value)
  }

  /** A written line reads as its row at the end of the text ... */
  lemma {:induction false} ReadLastLine(fields: seq<string>, row: Row, read: Row)
    requires WritesAll(fields, row) && row != []
    ensures ReadRecords(Join(fields, ","), read) == Some([read + row])
    decreases |row|
  {
    assert Writes(fields[0], row[0]);
    var tail := Join(fields[1..], ",");
    ReadStep(fields[0], row[0], read, tail);
    if |row| == 1 {
      assert row == [row[0]];
    } else {
      ReadLastLine(fields[1..], row[1..], read + [row[0]]);
      assert read + [row[0]] + row[1..] == read + row;
    }
  }

  lemma Regroup(field: string, tail: string, more: string)
    ensures field + "," + tail + "\n" + more == field + "," + (tail + "\n" + more)
  {
  }

  /** ... and before a line feed. */
  lemma {:induction false} ReadLine(fields: seq<string>, row: Row, read: Row, more: string)
    requires WritesAll(fields, row) && row != []
    ensures ReadRecords(Join(fields, ",") + "\n" + more, read) == Under(read + row, ReadRecords(more, []))
    decreases |row|
  {
    assert Writes(fields[0], row[0]);
    if |row| == 1 {
      ReadStep(fields[0], row[0], read, more);
      assert row == [row[0]];
    } else {
      var tail := Join(fields[1..], ",");
      Regroup(fields[0], tail, more);
      ReadStep(fields[0], row[0], read, tail + "\n" + more);
      ReadLine(fields[1..], row[1..], read + [row[0]], more);
      assert read + [row[0]] + row[1..] == read + row;
    }
  }

  lemma {:induction false} QuotedAllWrites(row: Row)
    ensures WritesAll(QuotedAll(row), row)
  {
    if row != [] {
      QuotedAllWrites(row[1..]);
      forall rest | EndsField(rest) ensures ReadField(Quoted(row[0]) + rest) == Some(Scan(row[0], rest)) {
        ReadQuotedField(row[0], rest);
      }
      forall i | 0 <= i < |row| ensures Writes(QuotedAll(row)[i], row[i]) {
        if i > 0 {
          assert QuotedAll(row)[i] == QuotedAll(row[1..])[i-1] && row[i] == row[1..][i-1];
        }
      }
    }
  }

  lemma HeadersArePlain(i: nat)
    requires i < |CSV_HEADERS|
    ensures PlainName(CSV_HEADERS[i])
  {
    assert PlainName("id") && PlainName("tenant_id") && PlainName("user_id") && PlainName("timestamp");
    assert PlainName("action_type") && PlainName("data_classification") && PlainName("policy_applied");
    assert PlainName("policy_result") && PlainName("outcome") && PlainName("request_id");
  }

  lemma HeaderWrites()
    ensures WritesAll(CSV_HEADERS, CSV_HEADERS)
  {
    forall i | 0 <= i < |CSV_HEADERS| ensures Writes(CSV_HEADERS[i], CSV_HEADERS[i]) {
      var name := CSV_HEADERS[i];
      HeadersArePlain(i);
      forall rest | EndsField(rest) ensures ReadField(name + rest) == Some(Scan(name, rest)) {
        ReadPlainField(name, rest);
      }
    }
  }

  /** Lines after a first one read as rows. */
  lemma {:induction false} ReadLines(fields: seq<string>, first: Row, rows: seq<Row>)
    requires WritesAll(fields, first) && first != [] && forall row :: row in rows ==> row != []
    ensures Read(Join([Join(fields, ",")] + QuotedLines(rows), "\n")) == Some([first] + rows)
    decreases |rows|
  {
    var lines := [Join(fields, ",")] + QuotedLines(rows);
    assert [] + first == first;
    if rows == [] {
      ReadLastLine(fields, first, []);
      assert [first] + rows == [first];
    } else {
      assert lines[1..] == QuotedLines(rows) == [Join(QuotedAll(rows[0]), ",")] + QuotedLines(rows[1..]);
      assert rows[0] in rows && forall row :: row in rows[1..] ==> row in rows;
      QuotedAllWrites(rows[0]);
      ReadLines(QuotedAll(rows[0]), rows[0], rows[1..]);
      ReadLine(fields, first, [], Join(QuotedLines(rows), "\n"));
      assert rows == [rows[0]] + rows[1..];
    }
  }

  /** For any rows of any strings, quotes, commas and line feeds included, reading the export gives back
      the header and the rows. */
  lemma CsvRoundTrip(rows: seq<Row>)
    requires forall row :: row in rows ==> row != []
    ensures Read(ToCsv(rows)) == Some([CSV_HEADERS] + rows)
  {
    HeaderWrites();
    ReadLines(CSV_HEADERS, CSV_HEADERS, rows);
  }

  /** So an export determines the exported columns of every entry. */
  lemma ExportRoundTrip(entries: seq<Entry>)
    ensures Read(Export(entries)) == Some([CSV_HEADERS] + Rows(entries))
  {
    CsvRoundTrip(Rows(entries));
  }

  /** The entries agree in the ten exported columns. */
  predicate SameColumns(a: Entry, b: Entry) {
    a.(details := b.details) == b
  }

  /** Two lists of entries export to the same text exactly when they are as long as each other and agree,
      entry by entry, in the ten exported columns; details such as the policy's reason are lost. */
  lemma ExportsAlikeIff(a: seq<Entry>, b: seq<Entry>)
    ensures Export(a) == Export(b) <==> |a| == |b| && forall i :: 0 <= i < |a| ==> SameColumns(a[i], b[i])
  {
    ExportRoundTrip(a);
    ExportRoundTrip(b);
    if Export(a) == Export(b) {
      assert ([CSV_HEADERS] + Rows(a))[1..] == Rows(a) && ([CSV_HEADERS] + Rows(b))[1..] == Rows(b);
      forall i | 0 <= i < |a| ensures SameColumns(a[i], b[i]) {
        assert RowOf(a[i]) == Rows(a)[i] == Rows(b)[i] == RowOf(b[i]);
        SameRow(a[i], b[i]);
      }
    }
    if |a| == |b| && forall i :: 0 <= i < |a| ==> SameColumns(a[i], b[i]) {
      forall i | 0 <= i < |a| ensures Rows(a)[i] == Rows(b)[i] {
        assert SameColumns(a[i], b[i]);
        SameRow(a[i], b[i]);
      }
      assert Rows(a) == Rows(b);
    }
  }

  /** An entry exports like the one with another reason. */
  lemma ReasonIsNotExported(e: Entry, reason: string)
    ensures Export([e]) == Export([e.(details := e.details.(policyReason := reason))])
  {
    ExportsAlikeIff([e], [e.(details := e.details.(policyReason := reason))]);
  }

  lemma SameRow(a: Entry, b: Entry)
    ensures RowOf(a) == RowOf(b) <==> SameColumns(a, b)
  {
    var r, s := RowOf(a), RowOf(b);
    if r == s {
      assert r[0] == s[0] && r[1] == s[1] && r[2] == s[2] && r[3] == s[3] && r[4] == s[4];
      assert r[5] == s[5] && r[6] == s[6] && r[7] == s[7] && r[8] == s[8] && r[9] == s[9];
    }
  }
}
