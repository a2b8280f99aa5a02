# Credit-card validation step bindings, modelled in Dafny

This project models the step-binding class `CreditCardValidationSteps` of a
behaviour-driven test suite for a credit-card validation API. One instance of
the class serves one scenario. Its steps:

- record the test case name in the scenario's store;
- build a POST request to `/CardValidation/card/credit/validate` from the first
  row of a table with the columns `Owner`, `Number`, `Cvv` and `IssueDate`;
- send the request and keep the response (the HTTP client sends a request
  message only once, and sends nothing once disposed);
- check the response's status code for exact equality;
- check that the response body contains a text, ignoring case;
- dispose of the request, response, HTTP client and test-server factory, once.

Modules, one per concern:

- `Wrappers` (wrappers.dfy): `Option`, `Result` and `Outcome`. They stand in
  for nullable fields and thrown exceptions.
- `Text` (text.dfy): `String.Trim` with the white-space set of
  `char.IsWhiteSpace`, ASCII case folding, `String.IndexOf`, and the
  case-insensitive "contains" test built from them.
- `Decimal` (decimal.dfy): the decimal text of an `int`, as string
  interpolation writes it, and a parser that reads it back.
- `StepErrors` (errors.dfy): the failures a step can raise and the messages
  the class writes for them.
- `CardRequest` (payload.dfy): from a table row to the payload, and from the
  payload to the request descriptor.
- `Checks` (checks.dfy): the two read-only response checks.
- `Steps` (steps.dfy): the class itself, with fields `request`, `sent`,
  `response`, `disposed` and `released`. It also holds six client methods that run whole
  scenarios against it.

The class's HTTP client and in-process test server form the transport. The
model makes it a parameter of the send step: a total function from a request
to either a response (status code and body) or the reason the send failed.

A row without a required column fails with `MissingColumn`, because the
table-row indexer throws for an unknown column. Only a null cell becomes the
empty string.

## Model

| member | source | states |
|---|---|---|
| `Text.IsWhiteSpace` | CardValidation.Tests/IntegrationTests/Steps/CreditCardValidationSteps.cs:53-56 | no ASCII letter or digit counts as white space, so trimming never removes card data |
| `Text.TrimStart` | CardValidation.Tests/IntegrationTests/Steps/CreditCardValidationSteps.cs:53-56 | the result is a suffix of the input, everything dropped is white space, and it does not start with white space |
| `Text.LeadingWhiteSpace` | CardValidation.Tests/IntegrationTests/Steps/CreditCardValidationSteps.cs:53-56 | the count covers only white space, and the character after it is not white space |
| `Text.TrailingWhiteSpace` | CardValidation.Tests/IntegrationTests/Steps/CreditCardValidationSteps.cs:53-56 | the count covers only white space at the end, and the character before it is not white space |
| `Text.TrimEnd` | CardValidation.Tests/IntegrationTests/Steps/CreditCardValidationSteps.cs:53-56 | the result is a prefix of the input, everything dropped is white space, and it does not end with white space |
| `Text.Trim` | CardValidation.Tests/IntegrationTests/Steps/CreditCardValidationSteps.cs:53-56 | a trimmed cell is no longer than the cell, and neither of its ends is white space |
| `Text.TrimIsMiddleSlice` | CardValidation.Tests/IntegrationTests/Steps/CreditCardValidationSteps.cs:53-56 | Trim keeps one contiguous slice of its input and drops only white space on either side of it |
| `Text.TrimOfPadded` | CardValidation.Tests/IntegrationTests/Steps/CreditCardValidationSteps.cs:53-56 | white space, then a trimmed text, then white space, trims to exactly that text (an independent characterisation of Trim) |
| `Text.TrimIdempotent` | CardValidation.Tests/IntegrationTests/Steps/CreditCardValidationSteps.cs:53-56 | trimming a trimmed cell changes nothing |
| `Text.ToLowerChar` | CardValidation.Tests/IntegrationTests/Steps/CreditCardValidationSteps.cs:112 | 'A'..'Z' become the matching letter of 'a'..'z'; lower-case letters and non-letters are kept; the result is never upper case |
| `Text.ToLower` | CardValidation.Tests/IntegrationTests/Steps/CreditCardValidationSteps.cs:112 | folding keeps the length and folds each character in place |
| `Text.IndexOfFrom` | CardValidation.Tests/IntegrationTests/Steps/CreditCardValidationSteps.cs:112 | the result is -1 when the text does not occur at or after the start index; otherwise it is the first index where it occurs |
| `Text.IndexOf` | CardValidation.Tests/IntegrationTests/Steps/CreditCardValidationSteps.cs:112 | -1 exactly when the text occurs nowhere; otherwise the first occurrence |
| `Text.FoldedEqual` | CardValidation.Tests/IntegrationTests/Steps/CreditCardValidationSteps.cs:112 | two strings are equal up to case exactly when their folded forms are equal |
| `Text.FoldedOccurrence` | CardValidation.Tests/IntegrationTests/Steps/CreditCardValidationSteps.cs:112 | an occurrence at an index in the folded strings is exactly an occurrence there up to case |
| `Text.FoldedIndexOfMeaning` | CardValidation.Tests/IntegrationTests/Steps/CreditCardValidationSteps.cs:112 | IndexOf finds the folded text in the folded body exactly when some slice of the body equals the text up to case (both directions) |
| `Text.ContainsIgnoreCase` | CardValidation.Tests/IntegrationTests/Steps/CreditCardValidationSteps.cs:112 | the constraint passes exactly when the expected text occurs in the body up to case |
| `Text.EmptyIsContained` | CardValidation.Tests/IntegrationTests/Steps/CreditCardValidationSteps.cs:112 | the empty text is contained in every body |
| `Text.ExactOccurrenceIsContained` | CardValidation.Tests/IntegrationTests/Steps/CreditCardValidationSteps.cs:112 | a case-exact occurrence is also found by the case-insensitive test |
| `Text.ContainsIgnoreCaseOfFolded` | CardValidation.Tests/IntegrationTests/Steps/CreditCardValidationSteps.cs:112 | folding the body or the expected text first does not change the answer |
| `Decimal.FormatNat` | CardValidation.Tests/IntegrationTests/Steps/CreditCardValidationSteps.cs:100 | the text of a number is a non-empty run of digits with no leading zero |
| `Decimal.FormatInt` | CardValidation.Tests/IntegrationTests/Steps/CreditCardValidationSteps.cs:100 | the text of an int is non-empty, starts with "-" exactly when the int is negative, and is digits after that |
| `Decimal.ParseFormatNat` | CardValidation.Tests/IntegrationTests/Steps/CreditCardValidationSteps.cs:100 | the digits of a number read back to that number |
| `Decimal.ParseFormatInt` | CardValidation.Tests/IntegrationTests/Steps/CreditCardValidationSteps.cs:100 | the text of every int, sign included, reads back to that int |
| `StepErrors.Message` | CardValidation.Tests/IntegrationTests/Steps/CreditCardValidationSteps.cs:48-113 | the class writes the text of every failure except the four raised inside libraries (a missing column, a send after disposal, a second send of one request message, and a failed send) |
| `StepErrors.StatusMismatchMessage` | CardValidation.Tests/IntegrationTests/Steps/CreditCardValidationSteps.cs:99-100 | the message opens with its fixed text followed by the expected code, and ends with the full body |
| `StepErrors.StatusMismatchMessageRoundTrip` | CardValidation.Tests/IntegrationTests/Steps/CreditCardValidationSteps.cs:99-100 | a status-mismatch message is self-contained: the expected code, the actual code and the whole body can be read back from it |
| `StepErrors.BodyMismatchMessage` | CardValidation.Tests/IntegrationTests/Steps/CreditCardValidationSteps.cs:112-113 | a body-mismatch message quotes the expected text at a fixed place and ends with the whole body |
| `CardRequest.CellText` | CardValidation.Tests/IntegrationTests/Steps/CreditCardValidationSteps.cs:53-56 | a null cell gives the empty string; any cell gives a trimmed text no longer than the cell |
| `CardRequest.ReadCell` | CardValidation.Tests/IntegrationTests/Steps/CreditCardValidationSteps.cs:53-56 | reading succeeds exactly when the row has the column, and gives a trimmed text; otherwise it fails naming the column |
| `CardRequest.BuildPayload` | CardValidation.Tests/IntegrationTests/Steps/CreditCardValidationSteps.cs:48-65 | building succeeds only from a non-empty table whose first row has all four columns; every failure is EmptyTable or a missing column |
| `CardRequest.EmptyTableFails` | CardValidation.Tests/IntegrationTests/Steps/CreditCardValidationSteps.cs:48-49 | building fails with EmptyTable exactly when the table has no row |
| `CardRequest.PayloadOfCompleteRow` | CardValidation.Tests/IntegrationTests/Steps/CreditCardValidationSteps.cs:51-65 | a first row that has all four columns gives owner, number, cvv and date from the trimmed Owner, Number, Cvv and IssueDate cells |
| `CardRequest.MissingColumnFails` | CardValidation.Tests/IntegrationTests/Steps/CreditCardValidationSteps.cs:53-56 | a first row that lacks a column fails on the first missing one in the order Owner, Number, Cvv, IssueDate |
| `CardRequest.OnlyFirstRowIsRead` | CardValidation.Tests/IntegrationTests/Steps/CreditCardValidationSteps.cs:51 | rows after the first never change the result |
| `CardRequest.PayloadFieldsTrimmed` | CardValidation.Tests/IntegrationTests/Steps/CreditCardValidationSteps.cs:53-56 | every field of a built payload is trimmed at both ends |
| `CardRequest.PaddedCellText` | CardValidation.Tests/IntegrationTests/Steps/CreditCardValidationSteps.cs:53-56 | any white space before and any white space after a cell's text, independently chosen, never reaches the payload |
| `CardRequest.PaddedRowPayload` | CardValidation.Tests/IntegrationTests/Steps/CreditCardValidationSteps.cs:51-65 | a row whose four cells each wrap a trimmed text in their own leading and trailing white space gives exactly those texts as the payload |
| `CardRequest.JsonFields` | CardValidation.Tests/IntegrationTests/Steps/CreditCardValidationSteps.cs:59-67 | the JSON object has four members, and each is named owner, number, cvv or date |
| `CardRequest.Lookup` | CardValidation.Tests/IntegrationTests/Steps/CreditCardValidationSteps.cs:59-67 | a lookup fails exactly when no member has the name; otherwise it gives the value of a member with that name |
| `CardRequest.JsonFieldsRoundTrip` | CardValidation.Tests/IntegrationTests/Steps/CreditCardValidationSteps.cs:59-67 | binding the JSON object back gives the payload unchanged, and exactly the four keys are present (date keeps the issue date) |
| `CardRequest.JsonFieldValues` | CardValidation.Tests/IntegrationTests/Steps/CreditCardValidationSteps.cs:59-67 | each of the names owner, number, cvv and date finds its own field of the payload |
| `CardRequest.BuildRequest` | CardValidation.Tests/IntegrationTests/Steps/CreditCardValidationSteps.cs:69-72 | the request is a POST to the validation path with UTF-8 `application/json` content that binds back to the payload |
| `CardRequest.PrepareRequest` | CardValidation.Tests/IntegrationTests/Steps/CreditCardValidationSteps.cs:46-72 | preparing succeeds exactly when the payload builds, fails with the payload's error otherwise, and on success gives a POST to the validation path carrying that payload |
| `Checks.CheckStatus` | CardValidation.Tests/IntegrationTests/Steps/CreditCardValidationSteps.cs:91-101 | no response fails with ResponseNotReceived; otherwise the check passes exactly when the codes are equal, and a mismatch carries the expected code, the actual code and the body |
| `Checks.StatusCheckAcceptsOneCode` | CardValidation.Tests/IntegrationTests/Steps/CreditCardValidationSteps.cs:99 | a response passes the status check for one expected code only; there is no range matching |
| `Checks.CheckBody` | CardValidation.Tests/IntegrationTests/Steps/CreditCardValidationSteps.cs:105-114 | no response fails with ResponseNotReceived; otherwise the check passes exactly when the text occurs in the body up to case, and a miss carries the text and the body |
| `Checks.EmptyTextAlwaysFound` | CardValidation.Tests/IntegrationTests/Steps/CreditCardValidationSteps.cs:112 | with a response, the empty expected text always passes |
| `Checks.BodyCheckIgnoresCase` | CardValidation.Tests/IntegrationTests/Steps/CreditCardValidationSteps.cs:112 | the case of the expected text does not change whether the check passes |
| `Checks.CheckFailureKinds` | CardValidation.Tests/IntegrationTests/Steps/CreditCardValidationSteps.cs:93-113 | a check fails as a contract violation exactly when no response exists; with a response every failure is an assertion failure |
| `Steps.ScenarioContext.constructor` | CardValidation.Tests/IntegrationTests/Steps/CreditCardValidationSteps.cs:41 | the scenario's store starts empty |
| `Steps.CreditCardValidationSteps.Held` | CardValidation.Tests/IntegrationTests/Steps/CreditCardValidationSteps.cs:127-130 | disposal releases the client and the factory, and each message exactly when it exists |
| `Steps.CreditCardValidationSteps.constructor` | CardValidation.Tests/IntegrationTests/Steps/CreditCardValidationSteps.cs:25-34 | a new instance has no request, nothing sent, no response, is not disposed and has released nothing |
| `Steps.CreditCardValidationSteps.GivenThisIsTestCase` | CardValidation.Tests/IntegrationTests/Steps/CreditCardValidationSteps.cs:37-42 | the store maps `TestCaseName` to the given name, and its other entries are unchanged |
| `Steps.CreditCardValidationSteps.GivenIPrepareACreditCardWith` | CardValidation.Tests/IntegrationTests/Steps/CreditCardValidationSteps.cs:46-75 | on success the stored request is replaced by a new, unsent message built from the table; on failure the error is reported and the request and its sent mark are unchanged; the response is never touched |
| `Steps.CreditCardValidationSteps.WhenISendTheCardToTheValidationAPI` | CardValidation.Tests/IntegrationTests/Steps/CreditCardValidationSteps.cs:79-87 | without a request it fails with RequestNotInitialized; after disposal the client refuses with ClientDisposed; a message already sent is refused with RequestAlreadySent; these three change nothing. Otherwise the message is marked sent and the transport's answer replaces the response, the old response staying when the send fails |
| `Steps.CreditCardValidationSteps.ThenTheResponseStatusShouldBe` | CardValidation.Tests/IntegrationTests/Steps/CreditCardValidationSteps.cs:91-101 | the outcome is the status check of the stored response, and no field changes |
| `Steps.CreditCardValidationSteps.ThenTheResponseBodyShouldContain` | CardValidation.Tests/IntegrationTests/Steps/CreditCardValidationSteps.cs:105-114 | the outcome is the body check of the stored response, and no field changes |
| `Steps.CreditCardValidationSteps.Dispose` | CardValidation.Tests/IntegrationTests/Steps/CreditCardValidationSteps.cs:117-121 | after the call the instance is disposed; the first call releases what it holds, and later calls release nothing more |
| `Steps.CreditCardValidationSteps.DisposeResources` | CardValidation.Tests/IntegrationTests/Steps/CreditCardValidationSteps.cs:123-133 | only the first call with `disposing` set releases the held resources and sets the flag; every other call changes nothing |
| `Steps.EmptyTableScenario` | CardValidation.Tests/IntegrationTests/Steps/CreditCardValidationSteps.cs:46-113 | an empty table fails the prepare step; then the send step finds no request and both checks find no response |
| `Steps.PaddedCardScenario` | CardValidation.Tests/IntegrationTests/Steps/CreditCardValidationSteps.cs:46-113 | a row with white space of its own around each cell sends exactly the bare texts; each check passes exactly when the transport's answer has the expected status or contains the expected text |
| `Steps.SendTwiceScenario` | CardValidation.Tests/IntegrationTests/Steps/CreditCardValidationSteps.cs:79-87 | a second send of one prepared request is refused and the first answer stays the response; without a request both sends fail with RequestNotInitialized |
| `Steps.PrepareAgainScenario` | CardValidation.Tests/IntegrationTests/Steps/CreditCardValidationSteps.cs:46-87 | preparing again after a send gives a new message, so the next send gets the transport's answer |
| `Steps.SendAfterDisposeScenario` | CardValidation.Tests/IntegrationTests/Steps/CreditCardValidationSteps.cs:79-87 | after disposal a send of a freshly prepared request is refused with ClientDisposed (RequestNotInitialized when the table does not build), and no response is stored |
| `Steps.DisposeTwiceScenario` | CardValidation.Tests/IntegrationTests/Steps/CreditCardValidationSteps.cs:117-133 | disposing twice releases the same resources as disposing once, and the request is among them exactly when one was prepared |

## Left out

- CardValidation.Tests/TestSetup/Hooks.cs is not part of this model. It only deletes the `allure-results` directory before the run, and logs and swallows any error.
- The HTTP transport is not modelled. This covers `WebApplicationFactory`, `HttpClient.SendAsync`, reading the content, and the async/await around them. The send step takes the transport as a parameter instead.
- The two refusals of the HTTP client are checked in its own order: disposal first, then a message already sent. Their exception texts come from the library and are not modelled.
- The JSON text that `JsonSerializer.Serialize` produces is not modelled. The payload is an ordered list of name/value pairs, and `StringContent` is these pairs with their encoding and media type.
- Text.ContainsIgnoreCase: folds ASCII letters only. The source's constraint compares under the current culture, and culture-specific folding is not modelled.
- Checks.CheckBody: inherits the ASCII-only folding of `Text.ContainsIgnoreCase`.
- Steps.CreditCardValidationSteps.ThenTheResponseStatusShouldBe: still judges the stored response after disposal. In the source, disposing the response also disposes its content, so reading the body then throws `ObjectDisposedException`.
- Steps.CreditCardValidationSteps.ThenTheResponseBodyShouldContain: still judges the stored response after disposal, where the source's read of the disposed content throws `ObjectDisposedException`.
- Decimal.FormatInt: writes "-" as the negative sign. The current culture's negative sign is not modelled.
- Status codes and expected codes are unbounded integers rather than 32-bit `int`. The source only compares them and prints them, so no overflow can arise.
- The message of a missing column and of a failed send come from libraries, so they are not modelled.
- Step-text dispatch is not modelled: the regular expressions on the step attributes and the conversion of captured text to `int`. The Allure attributes and the console logging are left out as well.
- The scenario store is not modelled as process-wide. It is a `ScenarioContext` object passed to the step explicitly.
- `GC.SuppressFinalize` in `Dispose()` has no counterpart. The model has no finaliser.
- Disposal does not clear `request` or `response`, because the source does not. The `released` set records what disposal released.
