/**
 * From the table of the "I prepare a credit card with:" step to the request
 * descriptor: read the first row, trim four cells, rename IssueDate to `date`,
 * and wrap the payload in a POST to the validation endpoint.
 */
module CardRequest {
  import opened Wrappers
  import opened Text
  import opened StepErrors

  /** One data row of a step table: column name to cell text, None for a null cell. */
  type Row = map<string, Option<string>>

  /** The data rows of a step table, in order. */
  type Table = seq<Row>

  /** The columns the step reads, in the order it reads them. */
  const Columns: seq<string> := ["Owner", "Number", "Cvv", "IssueDate"]

  /** The request body before serialisation. */
  datatype Payload = Payload(owner: string, number: string, cvv: string, date: string)

  /** The value of one cell: its trimmed text, or the empty string for a null cell. */
  function CellText(cell: Option<string>): (r: string)
    ensures IsTrimmed(r)
    ensures cell.None? ==> r == ""
    ensures cell.Some? ==> |r| <= |cell.value|
  {
    if cell.Some? then Trim(cell.value) else ""
  }

  /** Looks up a column of a row; a column the table lacks is an error. */
  function ReadCell(row: Row, column: string): (r: Result<string, StepError>)
    ensures r.Success? <==> column in row
    ensures r.Failure? ==> r.error == MissingColumn(column)
    ensures r.Success? ==> IsTrimmed(r.value)
  {
    if column in row then Success(CellText(row[column])) else Failure(MissingColumn(column))
  }

  /** The row has every column the step reads. */
  predicate HasColumns(row: Row) {
    forall c :: c in Columns ==> c in row
  }

  /** The first column of `Columns` that the row lacks. */
  function FirstMissing(row: Row): string
    requires !HasColumns(row)
  {
    if "Owner" !in row then "Owner"
    else if "Number" !in row then "Number"
    else if "Cvv" !in row then "Cvv"
    else "IssueDate"
  }

  /**
   * Builds the payload from the first row of the table. An empty table is an
   * error, so is a missing column (the first one reported); otherwise each
   * field is its trimmed cell, `date` coming from the IssueDate column.
   */
  function BuildPayload(table: Table): (r: Result<Payload, StepError>)
    ensures r.Success? ==> |table| > 0 && HasColumns(table[0])
    ensures r.Failure? ==> r.error == EmptyTable || r.error.MissingColumn?
  {
    if |table| == 0 then Failure(EmptyTable)
    else
      var row := table[0];
      match ReadCell(row, "Owner")
      case Failure(e) => Failure(e)
      case Success(owner) =>
        match ReadCell(row, "Number")
        case Failure(e) => Failure(e)
        case Success(number) =>
          match ReadCell(row, "Cvv")
          case Failure(e) => Failure(e)
          case Success(cvv) =>
            match ReadCell(row, "IssueDate")
            case Failure(e) => Failure(e)
            case Success(issueDate) => Success(Payload(owner, number, cvv, issueDate))
  }

  /** An empty table, and only an empty table, fails with EmptyTable. */
  lemma EmptyTableFails(table: Table)
    ensures BuildPayload(table) == Failure(EmptyTable) <==> |table| == 0
  {
  }

  /**
   * A table whose first row has every column builds the payload of that row's
   * trimmed cells, `date` taken from IssueDate.
   */
  lemma PayloadOfCompleteRow(table: Table)
    requires |table| > 0 && HasColumns(table[0])
    ensures BuildPayload(table)
            == Success(Payload(CellText(table[0]["Owner"]), CellText(table[0]["Number"]),
                               CellText(table[0]["Cvv"]), CellText(table[0]["IssueDate"])))
  {
  }

  /** A first row that lacks a column fails with the first missing column, in reading order. */
  lemma MissingColumnFails(table: Table)
    requires |table| > 0 && !HasColumns(table[0])
    ensures BuildPayload(table) == Failure(MissingColumn(FirstMissing(table[0])))
  {
  }

  /** Only the first row is read: rows after it never change the payload. */
  lemma OnlyFirstRowIsRead(table: Table, more: Table)
    requires |table| > 0
    ensures BuildPayload(table + more) == BuildPayload(table[..1])
  {
    assert (table + more)[0] == table[..1][0];
  }

  /** Every field of a built payload is already trimmed. */
  lemma PayloadFieldsTrimmed(table: Table)
    requires BuildPayload(table).Success?
    ensures var p := BuildPayload(table).value;
            IsTrimmed(p.owner) && IsTrimmed(p.number) && IsTrimmed(p.cvv) && IsTrimmed(p.date)
  {
  }

  /** The members of the JSON object, in the order the payload declares them. */
  function JsonFields(p: Payload): (fields: seq<(string, string)>)
    ensures |fields| == 4
    ensures forall i :: 0 <= i < |fields| ==> fields[i].0 in JsonKeys
  {
    [("owner", p.owner), ("number", p.number), ("cvv", p.cvv), ("date", p.date)]
  }

  const JsonKeys: set<string> := {"owner", "number", "cvv", "date"}

  /** The value of the first member named `key`. */
  function Lookup(fields: seq<(string, string)>, key: string): (r: Option<string>)
    ensures r.None? <==> forall i :: 0 <= i < |fields| ==> fields[i].0 != key
    ensures r.Some? ==> exists i :: 0 <= i < |fields| && fields[i] == (key, r.value)
  {
    if fields == [] then None
    else if fields[0].0 == key then Some(fields[0].1)
    else Lookup(fields[1..], key)
  }

  /** Reads the four fields back from the JSON members. */
  function PayloadOfFields(fields: seq<(string, string)>): Option<Payload> {
    match (Lookup(fields, "owner"), Lookup(fields, "number"), Lookup(fields, "cvv"), Lookup(fields, "date"))
    case (Some(owner), Some(number), Some(cvv), Some(date)) => Some(Payload(owner, number, cvv, date))
    case _ => None
  }

  /** The JSON object carries each field under its own name, and nothing else. */
  lemma JsonFieldsRoundTrip(p: Payload)
    ensures PayloadOfFields(JsonFields(p)) == Some(p)
    ensures forall k :: k in JsonKeys <==> Lookup(JsonFields(p), k).Some?
  {
    JsonFieldValues(p);
  }

  /** Each of the four names finds its own field. */
  lemma JsonFieldValues(p: Payload)
    ensures Lookup(JsonFields(p), "owner") == Some(p.owner)
    ensures Lookup(JsonFields(p), "number") == Some(p.number)
    ensures Lookup(JsonFields(p), "cvv") == Some(p.cvv)
    ensures Lookup(JsonFields(p), "date") == Some(p.date)
  {
    var f := JsonFields(p);
    assert f[1..][1..][1..] == [("date", p.date)];
    assert Lookup(f, "number") == Lookup(f[1..], "number");
    assert Lookup(f, "cvv") == Lookup(f[1..][1..], "cvv");
    assert Lookup(f, "date") == Lookup(f[1..][1..][1..], "date");
  }

  /** A cell's text with the white space typed before and after it. */
  datatype PaddedText = PaddedText(before: string, text: string, after: string)

  /** White space on each side, and a text that neither starts nor ends with white space. */
  predicate WellPadded(p: PaddedText) {
    AllWhiteSpace(p.before) && IsTrimmed(p.text) && AllWhiteSpace(p.after)
  }

  function Cell(p: PaddedText): Option<string> {
    Some(p.before + p.text + p.after)
  }

  /** A row whose four cells each carry their own white space around their text. */
  function PaddedRow(owner: PaddedText, number: PaddedText, cvv: PaddedText, issueDate: PaddedText): Row {
    map["Owner" := Cell(owner), "Number" := Cell(number), "Cvv" := Cell(cvv), "IssueDate" := Cell(issueDate)]
  }

  /** White space around the cells never reaches the payload. */
  lemma PaddedRowPayload(owner: PaddedText, number: PaddedText, cvv: PaddedText, issueDate: PaddedText)
    requires WellPadded(owner) && WellPadded(number) && WellPadded(cvv) && WellPadded(issueDate)
    ensures BuildPayload([PaddedRow(owner, number, cvv, issueDate)])
            == Success(Payload(owner.text, number.text, cvv.text, issueDate.text))
  {
    var row := PaddedRow(owner, number, cvv, issueDate);
    assert HasColumns(row);
    assert [row][0] == row;
    PayloadOfCompleteRow([row]);
    PaddedCellText(owner.before, owner.text, owner.after);
    PaddedCellText(number.before, number.text, number.after);
    PaddedCellText(cvv.before, cvv.text, cvv.after);
    PaddedCellText(issueDate.before, issueDate.text, issueDate.after);
  }

  /** White space before and after a cell's text never reaches the payload. */
  lemma PaddedCellText(before: string, text: string, after: string)
    requires AllWhiteSpace(before) && AllWhiteSpace(after) && IsTrimmed(text)
    ensures CellText(Some(before + text + after)) == text
  {
    TrimOfPadded(before, text, after);
  }

  datatype HttpMethod = Get | Post | Put | Delete
  datatype Encoding = Utf8

  /** A StringContent: the JSON members, the text encoding and the media type. */
  datatype Content = StringContent(json: seq<(string, string)>, encoding: Encoding, mediaType: string)

  datatype Request = Request(verb: HttpMethod, path: string, content: Content)

  const ValidatePath := "/CardValidation/card/credit/validate"
  const JsonMediaType := "application/json"

  /** The request the prepare step stores: a POST of the payload as UTF-8 JSON. */
  function BuildRequest(p: Payload): (r: Request)
    ensures r.verb == Post && r.path == ValidatePath
    ensures r.content.encoding == Utf8 && r.content.mediaType == JsonMediaType
    ensures PayloadOfFields(r.content.json) == Some(p)
  {
    JsonFieldsRoundTrip(p);
    Request(Post, ValidatePath, StringContent(JsonFields(p), Utf8, JsonMediaType))
  }

  /** Everything the prepare step computes from its table. */
  function PrepareRequest(table: Table): (r: Result<Request, StepError>)
    ensures r.Success? <==> BuildPayload(table).Success?
    ensures r.Failure? ==> r.error == BuildPayload(table).error
    ensures r.Success? ==> r.value.verb == Post && r.value.path == ValidatePath
    ensures r.Success? ==> PayloadOfFields(r.value.content.json) == Some(BuildPayload(table).value)
  {
    match BuildPayload(table)
    case Success(p) => Success(BuildRequest(p))
    case Failure(e) => Failure(e)
  }
}
