/**
 * The ways a step can fail and the text each failure carries. The steps
 * themselves throw three InvalidOperationExceptions (a table without data rows,
 * a send before any prepare, a check before any send) and two NUnit assertion
 * failures; the other four are raised inside the libraries the steps call (the
 * table's indexer and the HTTP client).
 */
module StepErrors {
  import opened Wrappers
  import opened Decimal
  import opened Text

  datatype StepError =
    | EmptyTable                                          // the table has no data row
    | MissingColumn(column: string)                       // the table has no such column
    | RequestNotInitialized                               // send before any prepare
    | ResponseNotReceived                                 // a check before any response
    | StatusMismatch(expectedStatus: int, actualStatus: int, body: string)
    | BodyMismatch(expectedText: string, body: string)
    | ClientDisposed                                      // a send after disposal
    | RequestAlreadySent                                  // a second send of one request message
    | TransportFailure(reason: string)                    // the HTTP send threw

  /** Failures caused by calling the steps in the wrong order or with an unusable table. */
  predicate IsContractViolation(e: StepError) {
    e.EmptyTable? || e.RequestNotInitialized? || e.ResponseNotReceived?
    || e.ClientDisposed? || e.RequestAlreadySent?
  }

  /** Failures that report an unexpected response of the system under test. */
  predicate IsAssertionFailure(e: StepError) {
    e.StatusMismatch? || e.BodyMismatch?
  }

  const EmptyTableMessage := "Table must contain at least one data row"
  const RequestNotInitializedMessage := "Request has not been initialized."
  const ResponseNotReceivedMessage := "Response has not been received yet."

  const StatusPrefix := "Expected HTTP "
  const StatusMiddle := ", but got "
  const StatusSuffix := ". Response body: "

  const BodyPrefix := "Expected response body to contain '"
  const BodySuffix := "', but got: "

  /**
   * The message of a failed status check: it opens with the expected code and
   * ends with the full response body.
   */
  function StatusMismatchMessage(expected: int, actual: int, body: string): (m: string)
    ensures OccursAt(m, StatusPrefix, 0) && OccursAt(m, FormatInt(expected), |StatusPrefix|)
    ensures |body| <= |m| && m[|m| - |body|..] == body
  {
    StatusPrefix + (FormatInt(expected) + (StatusMiddle + (FormatInt(actual) + (StatusSuffix + body))))
  }

  /**
   * The message of a failed body check: it quotes the expected text right
   * after its fixed opening and ends with the full response body.
   */
  function BodyMismatchMessage(expected: string, body: string): (m: string)
    ensures OccursAt(m, expected, |BodyPrefix|)
    ensures |body| <= |m| && m[|m| - |body|..] == body
  {
    var m := BodyPrefix + expected + (BodySuffix + body);
    assert m[|BodyPrefix|..|BodyPrefix| + |expected|] == expected;
    m
  }

  /**
   * The message the step bindings themselves write for a failure; the four
   * failures raised inside libraries carry the library's own text instead.
   */
  function Message(e: StepError): (m: Option<string>)
    ensures m.None? <==> e.MissingColumn? || e.ClientDisposed? || e.RequestAlreadySent? || e.TransportFailure?
  {
    match e
    case EmptyTable => Some(EmptyTableMessage)
    case RequestNotInitialized => Some(RequestNotInitializedMessage)
    case ResponseNotReceived => Some(ResponseNotReceivedMessage)
    case StatusMismatch(expected, actual, body) => Some(StatusMismatchMessage(expected, actual, body))
    case BodyMismatch(expected, body) => Some(BodyMismatchMessage(expected, body))
    case MissingColumn(_) => None
    case ClientDisposed => None
    case RequestAlreadySent => None
    case TransportFailure(_) => None
  }

  /**
   * Reads a status-check message back into the failure it reports: the
   * expected code, the actual code and the whole body.
   */
  function ParseStatusMismatchMessage(m: string): Option<StepError> {
    if OccursAt(m, StatusPrefix, 0) then ParseAfterPrefix(m[|StatusPrefix|..]) else None
  }

  function ParseAfterPrefix(r: string): Option<StepError> {
    var k := IntTokenLength(r);
    var expected := ParseInt(r[..k]);
    var rest := r[k..];
    if expected.Some? && OccursAt(rest, StatusMiddle, 0)
    then ParseAfterMiddle(expected.value, rest[|StatusMiddle|..])
    else None
  }

  function ParseAfterMiddle(expected: int, r: string): Option<StepError> {
    var k := IntTokenLength(r);
    var actual := ParseInt(r[..k]);
    var rest := r[k..];
    if actual.Some? && OccursAt(rest, StatusSuffix, 0)
    then Some(StatusMismatch(expected, actual.value, rest[|StatusSuffix|..]))
    else None
  }

  /** Reading `t + rest` as an int token followed by `rest`. */
  lemma TokenSplit(t: int, rest: string)
    requires rest != [] && !IsIntChar(rest[0])
    ensures var s := FormatInt(t) + rest;
            var k := IntTokenLength(s);
            s[..k] == FormatInt(t) && s[k..] == rest
  {
    FormatIntChars(t);
    IntTokenOfFormatted(FormatInt(t), rest);
  }

  lemma ParseAfterMiddleRoundTrip(expected: int, actual: int, body: string)
    ensures ParseAfterMiddle(expected, FormatInt(actual) + (StatusSuffix + body))
            == Some(StatusMismatch(expected, actual, body))
  {
    var tail := StatusSuffix + body;
    TokenSplit(actual, tail);
    ParseFormatInt(actual);
    assert OccursAt(tail, StatusSuffix, 0) by {
      assert tail[0..|StatusSuffix|] == StatusSuffix;
    }
    assert tail[|StatusSuffix|..] == body;
  }

  lemma ParseAfterPrefixRoundTrip(expected: int, rest: string)
    ensures ParseAfterPrefix(FormatInt(expected) + (StatusMiddle + rest)) == ParseAfterMiddle(expected, rest)
  {
    var tail := StatusMiddle + rest;
    TokenSplit(expected, tail);
    ParseFormatInt(expected);
    assert OccursAt(tail, StatusMiddle, 0) by {
      assert tail[0..|StatusMiddle|] == StatusMiddle;
    }
    assert tail[|StatusMiddle|..] == rest;
  }

  /**
   * A failed status check's message is self-contained: the expected code,
   * the actual code and the full response body can all be read back from it.
   */
  lemma StatusMismatchMessageRoundTrip(expected: int, actual: int, body: string)
    ensures ParseStatusMismatchMessage(StatusMismatchMessage(expected, actual, body))
            == Some(StatusMismatch(expected, actual, body))
  {
    var rest := FormatInt(actual) + (StatusSuffix + body);
    var r1 := FormatInt(expected) + (StatusMiddle + rest);
    var m := StatusPrefix + r1;
    assert OccursAt(m, StatusPrefix, 0) by {
      assert m[0..|StatusPrefix|] == StatusPrefix;
    }
    assert m[|StatusPrefix|..] == r1;
    ParseAfterPrefixRoundTrip(expected, rest);
    ParseAfterMiddleRoundTrip(expected, actual, body);
  }

}
