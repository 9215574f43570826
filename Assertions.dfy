/** The static checks of `ApiAssertions`. Each either passes or fails with
    the source's fixed message; a thrown Error is a `Fail(msg)`. */
module Assertions {
  import opened Wrappers
  import opened Text
  import opened Json
  import opened Http

  // ---------------------------------------------------------------------------
  // Status code
  // ---------------------------------------------------------------------------

  function AssertStatusCode(r: Response, expectedStatus: int): (o: Outcome)
    ensures o.Pass? <==> r.status == expectedStatus
    ensures o.Fail? ==> o.msg == "Expected status " + IntToString(expectedStatus) + ", but got " + IntToString(r.status)
  {
    if r.status != expectedStatus then
      Fail("Expected status " + IntToString(expectedStatus) + ", but got " + IntToString(r.status))
    else Pass
  }

  /** A status failure names both codes, and different actual codes give different messages. */
  lemma StatusFailureNamesBothCodes(r: Response, r': Response, expectedStatus: int)
    requires AssertStatusCode(r, expectedStatus).Fail?
    ensures Contains(AssertStatusCode(r, expectedStatus).msg, IntToString(expectedStatus))
    ensures Contains(AssertStatusCode(r, expectedStatus).msg, IntToString(r.status))
    ensures AssertStatusCode(r', expectedStatus) == AssertStatusCode(r, expectedStatus) ==> r'.status == r.status
  {
    var e, a := IntToString(expectedStatus), IntToString(r.status);
    var prefix := "Expected status " + e + ", but got ";
    var msg := AssertStatusCode(r, expectedStatus).msg;
    assert msg == prefix + a;
    assert msg == "Expected status " + e + (", but got " + a);
    ContainsInfix("Expected status ", e, ", but got " + a);
    assert msg == prefix + a + "";
    ContainsInfix(prefix, a, "");
    if AssertStatusCode(r', expectedStatus) == AssertStatusCode(r, expectedStatus) {
      var msg' := AssertStatusCode(r', expectedStatus).msg;
      assert msg' == prefix + IntToString(r'.status);
      assert msg'[|prefix|..] == IntToString(r'.status);
      assert msg[|prefix|..] == a;
      IntToStringInjective(r.status, r'.status);
    }
  }

  // ---------------------------------------------------------------------------
  // Response time
  // ---------------------------------------------------------------------------

  /** What `x-response-time || config.metadata.responseTime || 0` yields:
      a number of milliseconds, or a header string that is not a plain
      numeral and so compares as NaN. `shown` is how the message prints it. */
  datatype Elapsed = Millis(ms: int, shown: string) | NotANumber(shown: string)

  function ElapsedTime(r: Response): (t: Elapsed)
    ensures "x-response-time" in r.headers && r.headers["x-response-time"] != "" ==>
              t.shown == r.headers["x-response-time"]
              && (t.Millis? <==> ParseDecimal(t.shown).Some?)
              && (t.Millis? ==> ParseDecimal(t.shown) == Some(t.ms))
    ensures ("x-response-time" !in r.headers || r.headers["x-response-time"] == "") ==>
              t.Millis? && t.shown == IntToString(t.ms)
              && t.ms == (if r.metadataResponseTime.Some? then r.metadataResponseTime.value else 0)
  {
    if "x-response-time" in r.headers && r.headers["x-response-time"] != "" then
      var h := r.headers["x-response-time"];
      match ParseDecimal(h)
      case Some(n) => Millis(n, h)
      case None => NotANumber(h)
    else match r.metadataResponseTime
      case Some(t) => Millis(t, IntToString(t))
      case None => Millis(0, "0")
  }

  function AssertResponseTime(r: Response, maxTime: int): (o: Outcome)
    ensures o.Fail? <==> ElapsedTime(r).Millis? && ElapsedTime(r).ms > maxTime
    ensures o.Fail? ==> o.msg == "Response time " + ElapsedTime(r).shown + "ms exceeded maximum " + IntToString(maxTime) + "ms"
  {
    var t := ElapsedTime(r);
    if t.Millis? && t.ms > maxTime then
      Fail("Response time " + t.shown + "ms exceeded maximum " + IntToString(maxTime) + "ms")
    else Pass
  }

  /** Without any timing signal the elapsed time is taken as 0, so every
      non-negative bound passes. */
  lemma NoTimingSignalAlwaysPasses(r: Response, maxTime: int)
    requires "x-response-time" !in r.headers && r.metadataResponseTime.None?
    requires maxTime >= 0
    ensures AssertResponseTime(r, maxTime).Pass?
  {
  }

  /** A numeric `x-response-time` header wins over any attached `config.metadata.responseTime`. */
  lemma HeaderTimeTakesPrecedence(r: Response, maxTime: int, n: nat)
    requires "x-response-time" in r.headers && r.headers["x-response-time"] == NatToString(n)
    ensures AssertResponseTime(r, maxTime).Pass? <==> n <= maxTime
  {
    NatToStringRoundTrip(n);
  }

  // ---------------------------------------------------------------------------
  // Headers
  // ---------------------------------------------------------------------------

  function AssertHeader(r: Response, headerName: string, expectedValue: Option<string>): (o: Outcome)
    ensures o.Pass? <==> Header(r, Lower(headerName)) == expectedValue
    ensures o.Fail? ==> o.msg == "Expected header " + headerName + " to be " + ShowHeader(expectedValue)
                                 + ", but got " + ShowHeader(Header(r, Lower(headerName)))
  {
    var actualValue := Header(r, Lower(headerName));
    if actualValue != expectedValue then
      Fail("Expected header " + headerName + " to be " + ShowHeader(expectedValue) + ", but got " + ShowHeader(actualValue))
    else Pass
  }

  /** A header that is absent fails against every defined expected value. */
  lemma MissingHeaderNeverMatches(r: Response, headerName: string, expected: string)
    requires Lower(headerName) !in r.headers
    ensures AssertHeader(r, headerName, Some(expected)).Fail?
  {
  }

  function AssertHeaderExists(r: Response, headerName: string): (o: Outcome)
    ensures o.Pass? <==> Lower(headerName) in r.headers
    ensures o.Fail? ==> o.msg == "Expected header " + headerName + " to exist"
  {
    if Lower(headerName) !in r.headers then Fail("Expected header " + headerName + " to exist") else Pass
  }

  /** Header checks ignore the case of the name: a name and its lowercase form
      pass or fail together, for both header checks. */
  lemma HeaderChecksIgnoreCase(r: Response, headerName: string, expected: Option<string>)
    ensures AssertHeaderExists(r, headerName).Pass? == AssertHeaderExists(r, Lower(headerName)).Pass?
    ensures AssertHeader(r, headerName, expected).Pass? == AssertHeader(r, Lower(headerName), expected).Pass?
  {
    LowerIdempotent(headerName);
  }

  // ---------------------------------------------------------------------------
  // Content type
  // ---------------------------------------------------------------------------

  function AssertJsonResponse(r: Response): (o: Outcome)
    ensures o.Pass? <==> "content-type" in r.headers && r.headers["content-type"] != ""
                         && Contains(r.headers["content-type"], "application/json")
    ensures o.Fail? ==> o.msg == "Expected JSON response, but got content-type: " + ShowHeader(Header(r, "content-type"))
  {
    var contentType := Header(r, "content-type");
    if contentType.None? || contentType.value == "" || !Contains(contentType.value, "application/json") then
      Fail("Expected JSON response, but got content-type: " + ShowHeader(contentType))
    else Pass
  }

  /** The content-type test is a substring test: anything around
      "application/json" (a charset suffix, say) still passes. */
  lemma JsonContentTypeAllowsParameters(r: Response, before: string, after: string)
    requires "content-type" in r.headers && r.headers["content-type"] == before + "application/json" + after
    ensures AssertJsonResponse(r).Pass?
  {
    ContainsInfix(before, "application/json", after);
  }

  /** Adding text after a content type that passes keeps it passing. */
  lemma JsonContentTypeSuffixKeepsPassing(r: Response, suffix: string)
    requires AssertJsonResponse(r).Pass?
    ensures AssertJsonResponse(r.(headers := r.headers["content-type" := r.headers["content-type"] + suffix])).Pass?
  {
    ContainsExtend(r.headers["content-type"], suffix, "application/json");
  }

  // ---------------------------------------------------------------------------
  // Property paths
  // ---------------------------------------------------------------------------

  /** The message for a path that does not resolve. */
  function MissingPropertyMessage(propertyPath: string): string
  {
    "Property " + propertyPath + " does not exist in response"
  }

  /** Walks `propertyPath.split('.')` from `data`, failing at the first
      segment whose current value is falsy or does not own it. */
  method AssertPropertyExists(data: Value, propertyPath: string) returns (o: Outcome)
    ensures o.Pass? <==> Lookup(data, propertyPath).Some?
    ensures o.Fail? ==> o.msg == MissingPropertyMessage(propertyPath)
  {
    var properties := Split(propertyPath, '.');
    var current := data;
    var i := 0;
    while i < |properties|
      invariant 0 <= i <= |properties|
      invariant Resolve(data, properties) == Resolve(current, properties[i..])
    {
      var prop := properties[i];
      if !Truthy(current) || OwnKey(current, prop).None? {
        return Fail(MissingPropertyMessage(propertyPath));
      }
      current := OwnKey(current, prop).value;
      i := i + 1;
    }
    return Pass;
  }

  /** The same walk, then a strict comparison of the value reached with the expected one. */
  method AssertPropertyValue(data: Value, propertyPath: string, expectedValue: Value) returns (o: Outcome)
    ensures Lookup(data, propertyPath).None? ==> o == Fail(MissingPropertyMessage(propertyPath))
    ensures o.Pass? <==> Lookup(data, propertyPath).Some? && StrictEquals(Lookup(data, propertyPath).value, expectedValue)
    ensures Lookup(data, propertyPath).Some? && o.Fail? ==>
      o.msg == "Expected " + propertyPath + " to be " + JsString(expectedValue)
               + ", but got " + JsString(Lookup(data, propertyPath).value)
  {
    var properties := Split(propertyPath, '.');
    var current := data;
    var i := 0;
    while i < |properties|
      invariant 0 <= i <= |properties|
      invariant Resolve(data, properties) == Resolve(current, properties[i..])
    {
      var prop := properties[i];
      if !Truthy(current) || OwnKey(current, prop).None? {
        return Fail(MissingPropertyMessage(propertyPath));
      }
      current := OwnKey(current, prop).value;
      i := i + 1;
    }
    if !StrictEquals(current, expectedValue) {
      return Fail("Expected " + propertyPath + " to be " + JsString(expectedValue) + ", but got " + JsString(current));
    }
    return Pass;
  }

  /** Runs both property checks on the same data and path: the value check
      fails exactly as the existence check does whenever that one fails, and
      passes only where it passes. */
  method PropertyValueRefinesExistence(data: Value, propertyPath: string, expectedValue: Value) returns (v: Outcome, e: Outcome)
    ensures e.Fail? ==> v == e
    ensures v.Pass? ==> e.Pass?
  {
    v := AssertPropertyValue(data, propertyPath, expectedValue);
    e := AssertPropertyExists(data, propertyPath);
  }

  // ---------------------------------------------------------------------------
  // Arrays
  // ---------------------------------------------------------------------------

  function AssertArrayLength(arrayValue: Value, expectedLength: int): (o: Outcome)
    ensures !arrayValue.Arr? ==> o == Fail("Expected an array")
    ensures o.Pass? <==> arrayValue.Arr? && |arrayValue.items| == expectedLength
    ensures arrayValue.Arr? && o.Fail? ==>
      o.msg == "Expected array length " + IntToString(expectedLength) + ", but got " + IntToString(|arrayValue.items|)
  {
    if !arrayValue.Arr? then Fail("Expected an array")
    else if |arrayValue.items| != expectedLength then
      Fail("Expected array length " + IntToString(expectedLength) + ", but got " + IntToString(|arrayValue.items|))
    else Pass
  }

  /** A length mismatch names both the expected and the actual length. */
  lemma LengthMismatchNamesBoth(arrayValue: Value, expectedLength: int)
    requires arrayValue.Arr? && |arrayValue.items| != expectedLength
    ensures Contains(AssertArrayLength(arrayValue, expectedLength).msg, IntToString(expectedLength))
    ensures Contains(AssertArrayLength(arrayValue, expectedLength).msg, IntToString(|arrayValue.items|))
  {
    var e, a := IntToString(expectedLength), IntToString(|arrayValue.items|);
    var prefix := "Expected array length " + e + ", but got ";
    var msg := AssertArrayLength(arrayValue, expectedLength).msg;
    assert msg == prefix + a;
    assert msg == "Expected array length " + e + (", but got " + a);
    ContainsInfix("Expected array length ", e, ", but got " + a);
    assert msg == prefix + a + "";
    ContainsInfix(prefix, a, "");
  }

  /** ["a", "b"] has length 2; ["a"] does not, and the message says "2" and "1". */
  lemma ArrayLengthExamples()
    ensures AssertArrayLength(Arr([Str("a"), Str("b")]), 2) == Pass
    ensures AssertArrayLength(Arr([Str("a")]), 2) == Fail("Expected array length 2, but got 1")
    ensures Contains(AssertArrayLength(Arr([Str("a")]), 2).msg, "2")
    ensures Contains(AssertArrayLength(Arr([Str("a")]), 2).msg, "1")
  {
    assert IntToString(2) == "2" && IntToString(1) == "1";
    LengthMismatchNamesBoth(Arr([Str("a")]), 2);
  }

  function AssertArrayNotEmpty(arrayValue: Value): (o: Outcome)
    ensures !arrayValue.Arr? ==> o == Fail("Expected an array")
    ensures o.Pass? <==> arrayValue.Arr? && |arrayValue.items| > 0
    ensures arrayValue.Arr? && o.Fail? ==> o.msg == "Expected array to not be empty"
  {
    if !arrayValue.Arr? then Fail("Expected an array")
    else if |arrayValue.items| == 0 then Fail("Expected array to not be empty")
    else Pass
  }

  /** A non-empty array is exactly one whose length check fails against 0. */
  lemma NotEmptyIsLengthNotZero(arrayValue: Value)
    requires arrayValue.Arr?
    ensures AssertArrayNotEmpty(arrayValue).Pass? <==> AssertArrayLength(arrayValue, 0).Fail?
  {
  }
}
