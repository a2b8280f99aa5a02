/**
 * The step-binding class: one instance per scenario, holding the prepared
 * request, whether that request message was sent, the received response and
 * the disposal flag, with one method per step. The HTTP client and test server
 * are an abstract transport, behind the client's own refusals.
 */
module Steps {
  import opened Wrappers
  import opened Text
  import opened StepErrors
  import opened CardRequest
  import opened Checks

  /** The disposable objects the step instance may own. */
  datatype Resource = RequestMessage | ResponseMessage | Client | Factory

  /** The scenario's key/value store. */
  class ScenarioContext {
    var entries: map<string, string>

    constructor ()
      ensures entries == map[]
    {
      entries := map[];
    }
  }

  const TestCaseNameKey := "TestCaseName"

  /**
   * Sending a request through the client: the response the server gives, or
   * the reason the send failed.
   */
  type Transport = Request -> Result<Response, string>

  class CreditCardValidationSteps {
    var request: Option<Request>
    /** The current request message went through the client; a message is sent at most once. */
    var sent: bool
    var response: Option<Response>
    var disposed: bool
    var released: set<Resource>

    /**
     * A response exists only after a request was prepared, and only a prepared
     * request can have been sent; nothing is released before disposal, and the
     * client and server factory are released by it.
     */
    predicate Valid()
      reads this
    {
      && (response.Some? ==> request.Some?)
      && (sent ==> request.Some?)
      && (!disposed ==> released == {})
      && (disposed ==> {Client, Factory} <= released)
    }

    /** What disposal releases in the current state: the messages that exist, the client and the factory. */
    function Held(): (held: set<Resource>)
      reads this
      ensures Client in held && Factory in held
      ensures RequestMessage in held <==> request.Some?
      ensures ResponseMessage in held <==> response.Some?
    {
      (if request.Some? then {RequestMessage} else {})
      + (if response.Some? then {ResponseMessage} else {})
      + {Client, Factory}
    }

    /** A fresh instance owns a client and a test server, and nothing else yet. */
    constructor ()
      ensures Valid()
      ensures request == None && !sent && response == None && !disposed && released == {}
    {
      request := None;
      sent := false;
      response := None;
      disposed := false;
      released := {};
    }

    /** Given this is test case "NAME": records the name in the scenario's store. */
    method GivenThisIsTestCase(context: ScenarioContext, testCaseName: string)
      modifies context
      ensures context.entries == old(context.entries)[TestCaseNameKey := testCaseName]
    {
      context.entries := context.entries[TestCaseNameKey := testCaseName];
    }

    /**
     * Given I prepare a credit card with: TABLE. On success the request is
     * replaced by a new, unsent message built from the first row; on failure
     * nothing changes.
     */
    method GivenIPrepareACreditCardWith(table: Table) returns (outcome: Outcome<StepError>)
      requires Valid()
      modifies this`request, this`sent
      ensures Valid()
      ensures match PrepareRequest(table)
              case Success(prepared) => outcome == Pass && request == Some(prepared) && !sent
              case Failure(e) => outcome == Fail(e) && request == old(request) && sent == old(sent)
    {
      if |table| == 0 {
        return Fail(EmptyTable);
      }
      var built := PrepareRequest(table);
      match built
      case Failure(e) =>
        outcome := Fail(e);
      case Success(prepared) =>
        request := Some(prepared);
        sent := false;
        outcome := Pass;
    }

    /**
     * When I send the card to the validation API. Without a prepared request
     * it fails. The client then refuses to send once disposed, and refuses a
     * message it has already sent; both leave everything as it was. Otherwise
     * the message is marked as sent before it goes out, and the transport's
     * answer replaces the response.
     */
    method WhenISendTheCardToTheValidationAPI(transport: Transport) returns (outcome: Outcome<StepError>)
      requires Valid()
      modifies this`response, this`sent
      ensures Valid()
      ensures request.None? ==> outcome == Fail(RequestNotInitialized)
      ensures request.Some? && disposed ==> outcome == Fail(ClientDisposed)
      ensures request.Some? && !disposed && old(sent) ==> outcome == Fail(RequestAlreadySent)
      ensures request.None? || disposed || old(sent) ==> response == old(response) && sent == old(sent)
      ensures request.Some? && !disposed && !old(sent) ==>
        sent &&
        match transport(request.value)
        case Success(answer) => outcome == Pass && response == Some(answer)
        case Failure(reason) => outcome == Fail(TransportFailure(reason)) && response == old(response)
    {
      if request.None? {
        return Fail(RequestNotInitialized);
      }
      if disposed {
        return Fail(ClientDisposed);
      }
      if sent {
        return Fail(RequestAlreadySent);
      }
      sent := true;
      match transport(request.value)
      case Failure(reason) =>
        outcome := Fail(TransportFailure(reason));
      case Success(answer) =>
        response := Some(answer);
        outcome := Pass;
    }

    /** Then the response status should be N: read-only. */
    method ThenTheResponseStatusShouldBe(expectedStatus: int) returns (outcome: Outcome<StepError>)
      ensures outcome == CheckStatus(response, expectedStatus)
    {
      outcome := CheckStatus(response, expectedStatus);
    }

    /** Then the response body should contain "TEXT": read-only. */
    method ThenTheResponseBodyShouldContain(expectedResult: string) returns (outcome: Outcome<StepError>)
      ensures outcome == CheckBody(response, expectedResult)
    {
      outcome := CheckBody(response, expectedResult);
    }

    /** Dispose(): releases everything once; later calls change nothing. */
    method Dispose()
      requires Valid()
      modifies this`disposed, this`released
      ensures Valid() && disposed
      ensures released == if old(disposed) then old(released) else Held()
    {
      DisposeResources(true);
    }

    /**
     * Dispose(bool disposing): on the first call with `disposing` set, releases
     * the messages that exist, the client and the factory, and sets the flag;
     * any other call changes nothing.
     */
    method DisposeResources(disposing: bool)
      requires Valid()
      modifies this`disposed, this`released
      ensures Valid()
      ensures if disposing && !old(disposed)
              then disposed && released == Held()
              else disposed == old(disposed) && released == old(released)
    {
      if !disposed && disposing {
        var freed: set<Resource> := {};
        if request.Some? {
          freed := freed + {RequestMessage};
        }
        if response.Some? {
          freed := freed + {ResponseMessage};
        }
        freed := freed + {Client, Factory};
        released := released + freed;
        disposed := true;
      }
    }
  }

  /**
   * A scenario whose table has no data row: preparing fails, so sending finds
   * no request and the checks find no response.
   */
  method EmptyTableScenario(transport: Transport, status: int, text: string)
    returns (prepared: Outcome<StepError>, sent: Outcome<StepError>,
             statusChecked: Outcome<StepError>, bodyChecked: Outcome<StepError>)
    ensures prepared == Fail(EmptyTable)
    ensures sent == Fail(RequestNotInitialized)
    ensures statusChecked == Fail(ResponseNotReceived) && bodyChecked == Fail(ResponseNotReceived)
  {
    var steps := new CreditCardValidationSteps();
    prepared := steps.GivenIPrepareACreditCardWith([]);
    sent := steps.WhenISendTheCardToTheValidationAPI(transport);
    statusChecked := steps.ThenTheResponseStatusShouldBe(status);
    bodyChecked := steps.ThenTheResponseBodyShouldContain(text);
  }

  /**
   * A card whose four cells each carry white space around their text: the
   * request sent holds the bare texts, `date` holding the issue date, and the
   * two checks judge whatever the transport answered (for the approved card:
   * status 200 and a body containing "approved").
   */
  method PaddedCardScenario(transport: Transport,
                            owner: PaddedText, number: PaddedText, cvv: PaddedText, issueDate: PaddedText,
                            expectedStatus: int, expectedText: string)
    returns (sentRequest: Option<Request>, statusChecked: Outcome<StepError>, bodyChecked: Outcome<StepError>)
    requires WellPadded(owner) && WellPadded(number) && WellPadded(cvv) && WellPadded(issueDate)
    ensures sentRequest == Some(BuildRequest(Payload(owner.text, number.text, cvv.text, issueDate.text)))
    ensures var answer := transport(sentRequest.value);
            && (statusChecked == Pass <==> answer.Success? && answer.value.status == expectedStatus)
            && (bodyChecked == Pass <==> answer.Success? && OccursIgnoringCase(answer.value.body, expectedText))
  {
    var row := PaddedRow(owner, number, cvv, issueDate);
    PaddedRowPayload(owner, number, cvv, issueDate);
    var steps := new CreditCardValidationSteps();
    var prepared := steps.GivenIPrepareACreditCardWith([row]);
    var sent := steps.WhenISendTheCardToTheValidationAPI(transport);
    sentRequest := steps.request;
    statusChecked := steps.ThenTheResponseStatusShouldBe(expectedStatus);
    bodyChecked := steps.ThenTheResponseBodyShouldContain(expectedText);
  }

  /**
   * Sending one prepared request twice: the second send is refused and the
   * first answer stays the response. Without a request both sends fail for
   * that reason instead.
   */
  method SendTwiceScenario(transport: Transport, table: Table)
    returns (first: Outcome<StepError>, second: Outcome<StepError>,
             firstResponse: Option<Response>, secondResponse: Option<Response>)
    ensures secondResponse == firstResponse
    ensures PrepareRequest(table).Failure? ==> first == second == Fail(RequestNotInitialized)
    ensures PrepareRequest(table).Success? ==>
              first != Fail(RequestAlreadySent) && second == Fail(RequestAlreadySent)
  {
    var steps := new CreditCardValidationSteps();
    var prepared := steps.GivenIPrepareACreditCardWith(table);
    assert steps.request.Some? <==> PrepareRequest(table).Success?;
    first := steps.WhenISendTheCardToTheValidationAPI(transport);
    assert steps.request.Some? ==> steps.sent;
    firstResponse := steps.response;
    second := steps.WhenISendTheCardToTheValidationAPI(transport);
    secondResponse := steps.response;
  }

  /**
   * Preparing again after a send gives a new, unsent message, so the next
   * send goes through to the transport.
   */
  method PrepareAgainScenario(transport: Transport, table: Table)
    returns (first: Outcome<StepError>, again: Outcome<StepError>)
    ensures PrepareRequest(table).Success? ==>
              again == (match transport(PrepareRequest(table).value)
                        case Success(_) => Pass
                        case Failure(reason) => Fail(TransportFailure(reason)))
    ensures PrepareRequest(table).Failure? ==> first == again == Fail(RequestNotInitialized)
  {
    var steps := new CreditCardValidationSteps();
    var prepared := steps.GivenIPrepareACreditCardWith(table);
    first := steps.WhenISendTheCardToTheValidationAPI(transport);
    prepared := steps.GivenIPrepareACreditCardWith(table);
    again := steps.WhenISendTheCardToTheValidationAPI(transport);
  }

  /** After disposal the client refuses every send, even of a freshly prepared request. */
  method SendAfterDisposeScenario(transport: Transport, table: Table)
    returns (sentAfter: Outcome<StepError>, response: Option<Response>)
    ensures sentAfter == if PrepareRequest(table).Success? then Fail(ClientDisposed) else Fail(RequestNotInitialized)
    ensures response == None
  {
    var steps := new CreditCardValidationSteps();
    steps.Dispose();
    var prepared := steps.GivenIPrepareACreditCardWith(table);
    sentAfter := steps.WhenISendTheCardToTheValidationAPI(transport);
    response := steps.response;
  }

  /** Disposing twice releases exactly what disposing once does. */
  method DisposeTwiceScenario(table: Table) returns (once: set<Resource>, twice: set<Resource>)
    ensures once == twice
    ensures Client in once && Factory in once && ResponseMessage !in once
    ensures RequestMessage in once <==> PrepareRequest(table).Success?
  {
    var steps := new CreditCardValidationSteps();
    var prepared := steps.GivenIPrepareACreditCardWith(table);
    assert steps.request.Some? <==> PrepareRequest(table).Success?;
    assert steps.response.None?;
    steps.Dispose();
    once := steps.released;
    steps.Dispose();
    twice := steps.released;
  }
}
