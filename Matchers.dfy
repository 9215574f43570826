/** The three custom matchers registered with `expect.extend`. Each returns
    whether it passes and the message the runner shows; the message is the
    "not to ..." text when it passes (for a negated expectation) and the
    "Expected ..." text when it fails. The matchers only read their input. */
module Matchers {
  import opened Wrappers
  import opened Text
  import opened Json
  import opened Http
  import Assertions

  datatype MatchResult = MatchResult(pass: bool, message: string)

  function ToHaveStatusCode(response: Response, expectedStatus: int): (m: MatchResult)
    ensures m.pass <==> response.status == expectedStatus
    ensures m.message == if m.pass then "Expected status code not to be " + IntToString(expectedStatus)
                         else "Expected status code " + IntToString(expectedStatus) + ", but got " + IntToString(response.status)
  {
    var pass := response.status == expectedStatus;
    MatchResult(pass,
      if pass then "Expected status code not to be " + IntToString(expectedStatus)
      else "Expected status code " + IntToString(expectedStatus) + ", but got " + IntToString(response.status))
  }

  /** The matcher and `assertStatusCode` accept exactly the same responses. */
  lemma StatusMatcherAgreesWithAssertion(response: Response, expectedStatus: int)
    ensures ToHaveStatusCode(response, expectedStatus).pass <==> Assertions.AssertStatusCode(response, expectedStatus).Pass?
  {
  }

  function ToBeValidJson(response: Response): (m: MatchResult)
    ensures m.pass <==> "content-type" in response.headers && response.headers["content-type"] != ""
                        && Contains(response.headers["content-type"], "application/json")
    ensures m.message == if m.pass then "Expected response not to be JSON"
                         else "Expected JSON response, but got content-type: " + ShowHeader(Header(response, "content-type"))
  {
    var contentType := Header(response, "content-type");
    var pass := contentType.Some? && contentType.value != "" && Contains(contentType.value, "application/json");
    MatchResult(pass,
      if pass then "Expected response not to be JSON"
      else "Expected JSON response, but got content-type: " + ShowHeader(contentType))
  }

  /** The matcher and `assertJsonResponse` accept exactly the same responses,
      and on failure they show the same text. */
  lemma JsonMatcherAgreesWithAssertion(response: Response)
    ensures ToBeValidJson(response).pass <==> Assertions.AssertJsonResponse(response).Pass?
    ensures !ToBeValidJson(response).pass ==> ToBeValidJson(response).message == Assertions.AssertJsonResponse(response).msg
  {
  }

  // ---------------------------------------------------------------------------
  // How the runner reads a matcher's result, and `toBeValidJson` as written
  // ---------------------------------------------------------------------------

  /** The JavaScript value of a matcher's `pass` field. */
  datatype PassValue = Boolean(b: bool) | Undefined | EmptyString

  /** What the test runner concludes from a matcher result, for `expect(x).m()`
      (`negated` false) or `expect(x).not.m()` (`negated` true). The runner
      rejects any result whose `pass` is not a boolean. */
  datatype Verdict = Holds | Fails(message: string) | MalformedResult

  function RunMatcher(pass: PassValue, message: string, negated: bool): (v: Verdict)
    ensures v == MalformedResult <==> !pass.Boolean?
    ensures pass.Boolean? ==> (v == Holds <==> pass.b != negated)
    ensures v.Fails? ==> v.message == message
  {
    match pass
    case Boolean(b) => if b != negated then Holds else Fails(message)
    case _ => MalformedResult
  }

  /** `contentType && contentType.includes('application/json')` as JavaScript
      evaluates it: a missing header gives `undefined` and an empty one gives
      `""`, not `false`. */
  function ToBeValidJsonPassAsWritten(response: Response): (p: PassValue)
    ensures p.Boolean? <==> "content-type" in response.headers && response.headers["content-type"] != ""
    ensures p.Boolean? ==> p.b == ToBeValidJson(response).pass
  {
    match Header(response, "content-type")
    case None => Undefined
    case Some(contentType) =>
      if contentType == "" then EmptyString else Boolean(Contains(contentType, "application/json"))
  }

  /** Without a content-type header the matcher as written never reaches its
      own messages: both `toBeValidJson()` and `.not.toBeValidJson()` are
      rejected as malformed, although the second should hold. */
  lemma JsonMatcherAsWrittenRejectedWithoutHeader(response: Response)
    requires "content-type" !in response.headers
    ensures RunMatcher(ToBeValidJsonPassAsWritten(response), ToBeValidJson(response).message, false) == MalformedResult
    ensures RunMatcher(ToBeValidJsonPassAsWritten(response), ToBeValidJson(response).message, true) == MalformedResult
    ensures RunMatcher(Boolean(ToBeValidJson(response).pass), ToBeValidJson(response).message, true) == Holds
  {
  }

  /** With `pass` a boolean, the negated matcher holds exactly when
      `assertJsonResponse` throws, and the plain one fails with the
      assertion's own text. */
  lemma JsonMatcherVerdicts(response: Response)
    ensures RunMatcher(Boolean(ToBeValidJson(response).pass), ToBeValidJson(response).message, true) == Holds
            <==> Assertions.AssertJsonResponse(response).Fail?
    ensures Assertions.AssertJsonResponse(response).Fail? ==>
            RunMatcher(Boolean(ToBeValidJson(response).pass), ToBeValidJson(response).message, false)
            == Fails(Assertions.AssertJsonResponse(response).msg)
  {
    JsonMatcherAgreesWithAssertion(response);
  }

  /** Walks the path like `assertPropertyExists`, but records the first
      failing step in `pass` and leaves the loop instead of throwing. */
  method ToHaveProperty(obj: Value, propertyPath: string) returns (m: MatchResult)
    ensures m.pass <==> Lookup(obj, propertyPath).Some?
    ensures m.message == if m.pass then "Expected object not to have property " + propertyPath
                         else "Expected object to have property " + propertyPath
  {
    var properties := Split(propertyPath, '.');
    var current := obj;
    var pass := true;
    var i := 0;
    while i < |properties|
      invariant 0 <= i <= |properties|
      invariant pass ==> Resolve(obj, properties) == Resolve(current, properties[i..])
      invariant !pass ==> Resolve(obj, properties).None?
    {
      var prop := properties[i];
      if !Truthy(current) || OwnKey(current, prop).None? {
        pass := false;
        break;
      }
      current := OwnKey(current, prop).value;
      i := i + 1;
    }
    m := MatchResult(pass,
      if pass then "Expected object not to have property " + propertyPath
      else "Expected object to have property " + propertyPath);
  }

  /** Runs the matcher and the assertion on the same object and path: the
      matcher passes exactly when the assertion does not throw. */
  method PropertyMatcherAgreesWithAssertion(obj: Value, propertyPath: string) returns (m: MatchResult, o: Outcome)
    ensures m.pass <==> o.Pass?
    ensures !m.pass ==> o.msg == "Property " + propertyPath + " does not exist in response"
  {
    m := ToHaveProperty(obj, propertyPath);
    o := Assertions.AssertPropertyExists(obj, propertyPath);
  }
}
