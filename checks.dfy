/**
 * The two "Then" steps as read-only checks of the received response: exact
 * status equality, and case-insensitive containment of a text in the body.
 */
module Checks {
  import opened Wrappers
  import opened Text
  import opened StepErrors

  /** What the transport answered: the numeric status code and the body text. */
  datatype Response = Response(status: int, body: string)

  /** "the response status should be N". */
  function CheckStatus(response: Option<Response>, expected: int): (r: Outcome<StepError>)
    ensures response.None? ==> r == Fail(ResponseNotReceived)
    ensures response.Some? ==> (r == Pass <==> response.value.status == expected)
    ensures response.Some? && r.Fail? ==>
      r.error == StatusMismatch(expected, response.value.status, response.value.body)
  {
    match response
    case None => Fail(ResponseNotReceived)
    case Some(received) =>
      if received.status == expected then Pass
      else Fail(StatusMismatch(expected, received.status, received.body))
  }

  /** A received response passes the status check for one expected code only. */
  lemma StatusCheckAcceptsOneCode(response: Response, e1: int, e2: int)
    requires CheckStatus(Some(response), e1) == Pass && CheckStatus(Some(response), e2) == Pass
    ensures e1 == e2
  {
  }

  /** "the response body should contain "T"". */
  function CheckBody(response: Option<Response>, expected: string): (r: Outcome<StepError>)
    ensures response.None? ==> r == Fail(ResponseNotReceived)
    ensures response.Some? ==> (r == Pass <==> OccursIgnoringCase(response.value.body, expected))
    ensures response.Some? && r.Fail? ==> r.error == BodyMismatch(expected, response.value.body)
  {
    match response
    case None => Fail(ResponseNotReceived)
    case Some(received) =>
      if ContainsIgnoreCase(received.body, expected) then Pass
      else Fail(BodyMismatch(expected, received.body))
  }

  /** Once a response is in, the empty text is always found. */
  lemma EmptyTextAlwaysFound(response: Response)
    ensures CheckBody(Some(response), "") == Pass
  {
    EmptyIsContained(response.body);
  }

  /** The body check does not care about the case of the expected text. */
  lemma BodyCheckIgnoresCase(response: Response, expected: string)
    ensures CheckBody(Some(response), ToLower(expected)).Pass? == CheckBody(Some(response), expected).Pass?
  {
    ContainsIgnoreCaseOfFolded(response.body, expected);
  }

  /**
   * A check fails as a contract violation exactly when no response was
   * received; with a response, every failure is an assertion failure.
   */
  lemma CheckFailureKinds(response: Option<Response>, status: int, text: string)
    ensures CheckStatus(response, status).Fail? && IsContractViolation(CheckStatus(response, status).error)
            <==> response.None?
    ensures CheckBody(response, text).Fail? && IsContractViolation(CheckBody(response, text).error)
            <==> response.None?
    ensures response.Some? && CheckStatus(response, status).Fail? ==>
            IsAssertionFailure(CheckStatus(response, status).error)
    ensures response.Some? && CheckBody(response, text).Fail? ==>
            IsAssertionFailure(CheckBody(response, text).error)
  {
  }
}
