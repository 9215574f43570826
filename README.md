# Axios API automation framework: the verification layer, in Dafny

This project models the part of the Axios API automation framework that
judges HTTP responses, not the part that sends them:

- `ApiAssertions` (`Assertions` module). These static checks on a response's
  status, headers, content type, dotted property paths and arrays either
  return or throw an `Error` with a fixed message. Here a throw is
  `Outcome.Fail(msg)`.
- The three custom matchers registered with `expect.extend` (`Matchers`
  module): `toHaveStatusCode`, `toBeValidJson` and `toHaveProperty`. Each
  returns `{pass, message}`.
- `SchemaValidator` and the `schemas` table (`Schema` module). This is a small
  schema language that covers exactly what the four schemas use: objects with
  declared keys, numbers, strings, `.email()` and `.required()`. A validator
  collects every violation (`abortEarly: false`) and ignores undeclared keys
  (`allowUnknown: true`).
- `TestDataFactory` (`TestDataFactory` module). Fixed default records are
  merged with caller overrides (`{...defaults, ...overrides}`).

Support modules:

- `Wrappers`: `Option`, `Outcome` and `Result`.
- `Text`: decimal numerals, ASCII lowercasing, substring search, and
  `split`/`join` on a separator.
- `Json`: parsed payloads with JavaScript truthiness and `hasOwnProperty`.
  It also holds the dotted-path resolver `Resolve`/`Lookup`.
- `Http`: the response record.

The source walks property paths with a loop. Those walks are Dafny methods
with loop invariants (`AssertPropertyExists`, `AssertPropertyValue`,
`ToHaveProperty`). Each is proved against the recursive specification
`Json.Resolve`, whose properties are lemmas. Everything else is a pure
function, as it is in the source.

## Model

| member | source | states |
|---|---|---|
| Assertions.AssertStatusCode | src/utils/assertions.js:2-8 | passes iff the status equals the expected one; otherwise fails with exactly "Expected status E, but got A" |
| Assertions.StatusFailureNamesBothCodes | src/utils/assertions.js:2-8 | a status failure message contains both codes, and two equal failure messages come from equal actual statuses |
| Assertions.ElapsedTime | src/utils/assertions.js:11-12 | the header, then metadata, then 0 fallback: a non-empty `x-response-time` header is the time, shown as written, and is a number exactly when it parses as a numeral; otherwise the time is an attached `config.metadata.responseTime`, else 0, shown as its decimal |
| Assertions.AssertResponseTime | src/utils/assertions.js:10-19 | fails iff the elapsed time is a number above the maximum; a header that is not a numeral compares as NaN and never fails; the message shows the time as the source prints it |
| Assertions.NoTimingSignalAlwaysPasses | src/utils/assertions.js:11-14 | with neither the header nor an attached `config.metadata.responseTime` (this repository's client never attaches one), every bound of at least 0 passes |
| Assertions.HeaderTimeTakesPrecedence | src/utils/assertions.js:11-14 | a numeric `x-response-time` header alone decides the outcome, whatever `config.metadata.responseTime` holds |
| Assertions.AssertHeader | src/utils/assertions.js:21-29 | passes iff the entry under the lowercased name strictly equals the expected value (undefined included); the failure message prints `undefined` for a missing value |
| Assertions.MissingHeaderNeverMatches | src/utils/assertions.js:21-29 | an absent header fails against every defined expected value |
| Assertions.AssertHeaderExists | src/utils/assertions.js:31-37 | passes iff the headers own the lowercased name; otherwise fails with "Expected header N to exist" |
| Assertions.HeaderChecksIgnoreCase | src/utils/assertions.js:21-37 | a header name and its lowercase form give the same outcome in both header checks |
| Assertions.AssertJsonResponse | src/utils/assertions.js:39-47 | passes iff `content-type` is present, non-empty and contains "application/json"; otherwise fails naming the content type (or `undefined`) |
| Assertions.JsonContentTypeAllowsParameters | src/utils/assertions.js:42 | any text around "application/json", such as "; charset=utf-8", still passes |
| Assertions.JsonContentTypeSuffixKeepsPassing | src/utils/assertions.js:42 | appending to a passing content type keeps it passing |
| Assertions.AssertPropertyExists | src/utils/assertions.js:49-59 | loop proved against `Resolve`: passes iff every segment of `path.split('.')`, in order, meets a truthy value that owns it; otherwise fails with "Property P does not exist in response" |
| Assertions.AssertPropertyValue | src/utils/assertions.js:61-77 | the same walk: an unresolvable path gives the "does not exist" failure; otherwise passes iff the value reached strictly equals the expected one, and the failure prints both values as template literals would |
| Assertions.PropertyValueRefinesExistence | src/utils/assertions.js:49-77 | whenever the existence check fails, the value check fails with the same outcome; a passing value check implies the existence check passes |
| Assertions.AssertArrayLength | src/utils/assertions.js:79-89 | a non-array always gives "Expected an array"; otherwise passes iff the length matches, and the failure names both lengths |
| Assertions.LengthMismatchNamesBoth | src/utils/assertions.js:84-87 | a length mismatch message contains the expected and the actual length |
| Assertions.ArrayLengthExamples | src/utils/assertions.js:79-89 | `["a","b"]` against 2 passes; `["a"]` against 2 fails with "Expected array length 2, but got 1" |
| Assertions.AssertArrayNotEmpty | src/utils/assertions.js:91-99 | a non-array always gives "Expected an array"; otherwise passes iff the array is not empty |
| Assertions.NotEmptyIsLengthNotZero | src/utils/assertions.js:79-99 | on arrays, the non-empty check passes exactly when the length check against 0 fails |
| Json.CanonicalIndex | src/utils/assertions.js:54 | a key names an array or string index only when it is that index's own decimal numeral |
| Json.CanonicalIndexOfNumeral | src/utils/assertions.js:54 | every index's numeral, and only it, names that index |
| Json.ArrayOwnKeys | src/utils/assertions.js:54-57 | an array owns "length" (its size) and exactly the numerals of its indices, each giving that element |
| Json.StringOwnKeys | src/utils/assertions.js:54-57 | a string owns "length" and exactly the numerals of its indices, each giving the one-character string there |
| Json.ResolveAppend | src/utils/assertions.js:53-58 | walking `p + q` is walking `p`, then `q` from where it stopped |
| Json.FailedPrefixFails | src/utils/assertions.js:53-56 | once a prefix of the path fails, no later segment can make it succeed |
| Json.FalsyIntermediateFails | src/utils/assertions.js:54 | a falsy intermediate value (null, 0, "", false) stops the walk |
| Json.NullTerminalIsPresent | src/utils/assertions.js:53-58 | a key whose value is null is still present: the path resolves to null |
| Json.ResolveIffEveryStep | src/utils/assertions.js:53-58 | the walk succeeds iff every step, in order, finds a truthy value that owns the next segment |
| Json.NestedExampleLookups | src/utils/assertions.js:49-59 | in `{a:{b:{c:5}}}`, "a.b.c" reaches 5 and "a.x.c" does not resolve |
| Json.StrictEquals | src/utils/assertions.js:72 | `===` against a separately built value: true only for equal values, never for an array or object, and exactly value equality on primitives |
| Json.JsString | src/utils/assertions.js:74 | `${v}`: a non-negative number prints a numeral that reads back as it, a negative one starts with '-', an empty array prints "" |
| Json.JsStringSeparatesNumbers | src/utils/assertions.js:74 | different numbers print differently, so the message identifies the number found |
| Text.NatToStringRoundTrip | src/utils/assertions.js:5 | the numeral printed for a number reads back as that number |
| Text.IntToStringInjective | src/utils/assertions.js:5 | different integers print differently |
| Text.LowerIdempotent | src/utils/assertions.js:22 | lowercasing twice is lowercasing once |
| Text.ContainsIff | src/utils/assertions.js:42 | `includes` holds iff the substring occurs at some position |
| Text.ContainsInfix | src/utils/assertions.js:42 | a string contains whatever was placed inside it |
| Text.JoinSplit | src/utils/assertions.js:50 | joining the pieces of `split(sep)` with `sep` gives back the string |
| Text.SplitJoin | src/utils/assertions.js:50 | splitting a join of separator-free pieces gives back the pieces |
| Text.SplitPiecesSeparatorFree | src/utils/assertions.js:50 | no piece of a split contains the separator |
| Matchers.ToHaveStatusCode | tests/setup.js:8-17 | pass iff the statuses are equal; the message is the "not to be" text on pass and "Expected status code E, but got A" on failure |
| Matchers.StatusMatcherAgreesWithAssertion | tests/setup.js:8-17 | the matcher passes exactly when `assertStatusCode` does |
| Matchers.ToBeValidJson | tests/setup.js:19-29 | with `pass` taken as a boolean: pass iff content-type is present, non-empty and contains "application/json"; the message is chosen by `pass` |
| Matchers.JsonMatcherAgreesWithAssertion | tests/setup.js:19-29 | the matcher passes exactly when `assertJsonResponse` does, and its failure text is the assertion's |
| Matchers.ToBeValidJsonPassAsWritten | tests/setup.js:20-21 | the JavaScript value of `contentType && ...`: a boolean only when the header is present and non-empty, and then the same boolean as `ToBeValidJson` |
| Matchers.JsonMatcherAsWrittenRejectedWithoutHeader | tests/setup.js:19-29 | without a content-type header, the matcher as written is rejected both plainly and negated; the boolean version holds when negated |
| Matchers.JsonMatcherVerdicts | tests/setup.js:19-29 | with a boolean `pass`, `.not.toBeValidJson()` holds iff `assertJsonResponse` throws, and `toBeValidJson()` fails with the assertion's text |
| Matchers.ToHaveProperty | tests/setup.js:31-51 | loop with a `pass` flag and `break`, proved against `Resolve`: pass iff the path resolves; the message is chosen by `pass` |
| Matchers.PropertyMatcherAgreesWithAssertion | tests/setup.js:31-51 | the matcher passes exactly when `assertPropertyExists` does not throw |
| Schema.ValidateEmptyIffConforms | src/utils/schemaValidator.js:5-8 | no violation is collected iff the value satisfies the schema (the reference predicate `Conforms`) |
| Schema.Validate | src/utils/schemaValidator.js:5-8 | Joi's `schema.validate` with every violation collected: a number or string type reports at most one violation (its emptiness is `ValidateEmptyIffConforms`) |
| Schema.ValidateKeys | src/utils/schemaValidator.js:5-8 | an object's declared keys in order; at least one violation per missing required key |
| Schema.KeyViolations | src/utils/schemaValidator.js:5-8 | a key absent from the object reports something iff it is required |
| Schema.ViolationsUnderPath | src/utils/schemaValidator.js:5-8 | every violation's path extends the path being validated |
| Schema.DeclaredKeysReported | src/utils/schemaValidator.js:7 | with `allowUnknown: true`, an object reports violations only under its declared keys |
| Schema.ValidateKeysEmptyIff | src/utils/schemaValidator.js:5-8 | an object's key list reports nothing iff each declared key is absent and optional, or present and conforming |
| Schema.MissingRequiredKeyReported | src/utils/schemaValidator.js:6 | with `abortEarly: false`, every missing required key is reported at its own path |
| Schema.NestedViolationReported | src/utils/schemaValidator.js:6 | every violation inside a present key's value is also reported by the enclosing object |
| Schema.ValidateKeysAppend | src/utils/schemaValidator.js:5-8 | keys are checked in declaration order: the violations of a concatenated key list are concatenated |
| Schema.AbsentOptionalKeysSilent | src/utils/schemaValidator.js:5-8 | absent optional keys report nothing |
| Schema.UnknownKeyIgnored | src/utils/schemaValidator.js:7 | with `allowUnknown: true`, adding or changing an undeclared key leaves the violations unchanged |
| Schema.UnknownKeyKeepsPassing | src/utils/schemaValidator.js:4-16 | an object that passes `validateResponse` still passes with any undeclared key added |
| Schema.Messages | src/utils/schemaValidator.js:11 | one message per violation, in order |
| Schema.ValidateResponse | src/utils/schemaValidator.js:4-16 | returns the data unchanged iff it conforms; otherwise fails with "Schema validation failed: " and every violation message joined by ", " |
| Schema.AssertSchema | src/utils/schemaValidator.js:18-25 | returns true iff validation succeeds; otherwise it fails with the very same message |
| Schema.RequiredKeysOfSchemas | src/utils/schemaValidator.js:30-73 | user requires id, name, username, email; post requires userId, id, title, body; comment requires postId, id, name, email, body; errorResponse requires nothing; no schema declares a key twice |
| Schema.UserSchema | src/utils/schemaValidator.js:30-52 | an object schema; its required keys are in `RequiredKeysOfSchemas` and its shape in `UserSchemaShape` |
| Schema.PostSchema | src/utils/schemaValidator.js:54-59 | an object schema; its required keys are in `RequiredKeysOfSchemas` |
| Schema.CommentSchema | src/utils/schemaValidator.js:61-67 | an object schema; its required keys are in `RequiredKeysOfSchemas` |
| Schema.ErrorResponseSchema | src/utils/schemaValidator.js:69-73 | an object schema with no required key (`RequiredKeysOfSchemas`), so `{}` passes (`EmptyErrorResponsePasses`) |
| Schema.UserSchemaShape | src/utils/schemaValidator.js:30-52 | the user schema's first four keys are the required ones; address, phone, website and company are optional |
| Schema.MinimalUserViolatesNothing | src/utils/schemaValidator.js:30-52 | `{id:1, name:"A", username:"a", email:"a@b.com"}` breaks no constraint of the user schema when "a@b.com" is an email address |
| Schema.MinimalUserPasses | src/utils/schemaValidator.js:30-52 | `{id:1, name:"A", username:"a", email:"a@b.com"}` passes and is returned unchanged, and it still passes with any undeclared extra key |
| Schema.IdAndNameRequiredViolations | src/utils/schemaValidator.js:31-34 | the required part of the user schema reports `username` and then `email` for `{id:1, name:"A"}` |
| Schema.UserMissingTwoFields | src/utils/schemaValidator.js:30-52 | `{id:1, name:"A"}` gives exactly two violations: username required, then email required |
| Schema.UserMissingTwoFieldsMessage | src/utils/schemaValidator.js:10-13 | for that record the failure reads `Schema validation failed: "username" is required, "email" is required` |
| Schema.UsernameEmailRequiredMessage | src/utils/schemaValidator.js:11-12 | the two violation messages joined by ", " |
| Schema.TopLevelRequiredMessage | src/utils/schemaValidator.js:11 | a missing top-level key reads `"name" is required` |
| Schema.EmptyErrorResponsePasses | src/utils/schemaValidator.js:69-73 | every errorResponse field is optional, so `{}` passes |
| TestDataFactory.Merge | src/utils/testDataFactory.js:24 | the keys are the defaults' and the overrides' together; an override's value wins; other defaults are kept |
| TestDataFactory.MergeIdempotent | src/utils/testDataFactory.js:24 | feeding a generated record back as the overrides changes nothing |
| TestDataFactory.MergeWithoutOverrides | src/utils/testDataFactory.js:24 | merging no overrides returns the defaults |
| TestDataFactory.MergeSingle | src/utils/testDataFactory.js:24 | overriding one key of any record changes exactly that key |
| TestDataFactory.DefaultUser | src/utils/testDataFactory.js:4-23 | seven top-level keys and no `id`; address holds street, suite, city, zipcode and geo; company holds name, catchPhrase and bs |
| TestDataFactory.DefaultPost | src/utils/testDataFactory.js:30-32 | title, body and userId 1, and no `id` |
| TestDataFactory.DefaultComment | src/utils/testDataFactory.js:39-42 | name, email, body and postId 1, and no `id` |
| TestDataFactory.GenerateUser | src/utils/testDataFactory.js:2-26 | keys are the seven default keys plus the override keys; overrides win; other defaults are kept; `id` is present only if overridden |
| TestDataFactory.GeneratePost | src/utils/testDataFactory.js:28-35 | keys are title, body and userId plus the override keys; overrides win; `userId` is 1 unless overridden |
| TestDataFactory.GenerateComment | src/utils/testDataFactory.js:37-45 | keys are name, email, body and postId plus the override keys; overrides win; `postId` is 1 unless overridden |
| TestDataFactory.GenerateInvalidEmail | src/utils/testDataFactory.js:47-49 | always "invalid-email", which has no '@' |
| TestDataFactory.NoOverridesGivesDefaults | src/utils/testDataFactory.js:2-45 | with no overrides each generator returns exactly its defaults, none of which has `id` |
| TestDataFactory.SingleOverride | src/utils/testDataFactory.js:2-26 | overriding one key of a user changes that key and nothing else |
| TestDataFactory.ShallowAddressOverride | src/utils/testDataFactory.js:7-24 | an overriding address replaces the default one whole; nothing of the default nested object survives |
| TestDataFactory.PostTitleOverride | src/utils/testDataFactory.js:28-35 | `generatePost({title:"X"})` is `{title:"X", body:<default>, userId:1}` |
| TestDataFactory.DefaultPostMissesOnlyId | src/utils/testDataFactory.js:28-35 | against the post schema, the default post has exactly one violation: `id` is required |
| TestDataFactory.PostWithIdConforms | src/utils/testDataFactory.js:28-35 | a generated post with a numeric `id` override satisfies the post schema |
| TestDataFactory.DefaultCommentMissesOnlyId | src/utils/testDataFactory.js:37-45 | against the comment schema, the default comment has exactly one violation: `id` is required |

## Findings

| source | as written | input that shows it | evidently intended | confidence | as-written member | corrected member |
|---|---|---|---|---|---|---|
| tests/setup.js:21 | `pass = contentType && contentType.includes('application/json')` is `undefined` (or `""`) when the header is missing (or empty), not `false`; Jest rejects a matcher result whose `pass` is not a boolean | a response without a `content-type` header, checked with `expect(response).not.toBeValidJson()` | `pass` is `false` there, so the negated expectation holds and the plain one fails with "Expected JSON response, but got content-type: undefined" | medium: depends on the runner's check that `pass` is a boolean; not executed | Matchers.ToBeValidJsonPassAsWritten, Matchers.JsonMatcherAsWrittenRejectedWithoutHeader | Matchers.ToBeValidJson, Matchers.JsonMatcherVerdicts |

## Left out

- The HTTP client (axios wrapper, environment configuration, logging interceptors, auth headers) is I/O and a foreign library. Responses are given values.
- The HTML report script (DOM, downloads, dates, floating-point pass rates) and the end-to-end tests, which run against a live service.
- `jest.setTimeout` and the `beforeAll`/`afterAll` console logging in tests/setup.js are runner configuration and output.
- `generateRandomString` and `generateRandomNumber` depend on `Math.random`.
- Assertions.AssertResponseTime: the time is an integer. A header string counts as a number only when it is a plain decimal numeral; any other non-empty header string is treated as NaN, which never exceeds the bound. JavaScript's wider string-to-number coercion (signs, decimals, whitespace, exponents) is not modelled.
- Assertions.AssertResponseTime: a response without `config` (where the source would throw a TypeError) cannot be expressed, because `config.metadata.responseTime` is an `Option` on the response. Nothing in this repository sets `config.metadata`, so with its own client only the header can make the check fail.
- Assertions.AssertHeader, Assertions.AssertHeaderExists: lowercasing is ASCII-only. Header lookup sees only the map's own entries, not inherited object properties.
- Assertions.AssertPropertyValue: strict equality compares primitives by value. Arrays and objects are never equal, because the expected value is always a separately built object in JavaScript. Identity of the same reference is not modelled.
- Json.Value: numbers are integers, so floating-point payloads and their printing are not modelled. Object key order is not modelled (maps), so the printed form of objects is fixed as `[object Object]`.
- Matchers: the message is a string rather than a closure, and nothing is mutated, since values are immutable.
- Matchers.RunMatcher: this is the test runner's handling of a matcher result, not part of the repository. It assumes Jest's rule that `pass` must be a boolean, and it is used only to state the finding about `toBeValidJson`.
- Json.OwnKey: the walk calls `current.hasOwnProperty(prop)`. An object in the payload that owns a key named `hasOwnProperty` shadows the built-in, and the source then throws a TypeError. The model resolves such paths as if the built-in were called.
- Json.OwnKey: string "length" and indices count characters, while JavaScript counts UTF-16 code units. A character outside the Basic Multilingual Plane counts once here and twice in JavaScript.
- Schema.Validate: Joi's `.email()` rule is the caller's `isEmail` predicate. Joi's type conversion (for example, numeric strings accepted as numbers) and its unsafe-number checks are not modelled. Joi detail messages are modelled by their common form (`"path" is required`, `"path" must be a string`) and not checked against every Joi rule.
- TestDataFactory: records are maps, so the key order of the spread is not modelled.
