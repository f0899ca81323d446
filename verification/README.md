# http-tester HTTPEvaluator, modelled in Dafny

The HTTP evaluator is a test-assertion helper for Node. It sends one HTTP or
HTTPS request, buffers the whole response, and answers boolean questions about
that response: is a header present, does it carry a value, is the body
identical to a buffer.

This project models the two pure parts of `lib/HTTPEvaluator.js`:

- **The response predicate surface** (`evaluator.dfy`, module `Evaluator`).
  A captured response is a header map plus the body bytes. Node delivers the
  header names already lower-cased. The module defines `has_header`,
  `has_header_value`, `has_headers` (for both an array of names and a plain
  object of name/value pairs) and `body_identical_to_buffer`.
- **The request plan of `request_with_data`** (`dispatcher.dfy`, module
  `Dispatcher`). This is a pure function. It takes the caller's options and
  the optional `data` argument (none, a string, a buffer or a stream). It
  returns three things: the options handed to the HTTP client, the transport
  (`http` or `https`), and the write plan (end only, write one chunk then end,
  or pipe the stream). `request(options, callback)` is the same function with
  no data (`lib/HTTPEvaluator.js:151-155`). `querystring.stringify` and
  `url.parse` are passed in as function parameters.
- **The JavaScript built-ins the code relies on** (`js.dfy`, module `Js`).
  These are: `===` on the few value kinds compared, string coercion of
  `undefined`, `toLowerCase`/`toUpperCase`, `split` on `,`, and unanchored
  substring search. The case-insensitive alternation `/(GET|HEAD|DELETE)/i`
  is modelled as three literal searches in the upper-cased method.

The model follows the code as written. Four places where the code does not do
what it evidently means are listed under "## Findings". Each of them is
modelled twice: once as written, and once as intended with the intended
property proved.

The code disagrees with its own doc-comment in several places, and the model
follows the code in each:

- `has_headers` with an object (`lib/HTTPEvaluator.js:76-80`) does not check
  all the pairs; see "## Findings".
- `body_identical_to_buffer` is documented to return true or false
  (`lib/HTTPEvaluator.js:55`, `92-94`), but it throws; see "## Findings".
- When `data` is given, the "POST related parameter options" are documented
  as ignored (`lib/HTTPEvaluator.js:133-135`). In the code, `params` are not
  ignored: they are appended to the (doubled) path
  (`lib/HTTPEvaluator.js:168-183`), as `Dispatcher.ParamsAppendedToPath`
  states for any body.
- For a header with several values, a value that is present is documented to
  match (`lib/HTTPEvaluator.js:66-69`). Node joins repeated headers with
  ", " and the pieces are not trimmed, so only the first value matches: for
  `vary: Accept, Origin`, `Origin` does not. `Evaluator.HasHeaderValueUntrimmed`
  states this for `a, b`.

## Model

| member | source | states |
|---|---|---|
| `Js.Split` | lib/HTTPEvaluator.js:290 | splitting on `,` gives at least one piece, and no piece holds a `,`; nothing is trimmed and empty pieces are kept |
| `Js.JoinSplit` | lib/HTTPEvaluator.js:290 | joining the pieces of a raw header value back with `,` restores the raw value |
| `Js.SplitJoin` | lib/HTTPEvaluator.js:290 | splitting a `,`-join of comma-free pieces gives back exactly those pieces |
| `Js.IncludesIffOccurs` | lib/HTTPEvaluator.js:202 | the unanchored pattern match succeeds iff the pattern occurs at some index of the text |
| `Js.SameUpToCaseIsLowerCaseEquality` | lib/HTTPEvaluator.js:275 | two names are equal ignoring letter case iff their lower-cased forms are equal |
| `Evaluator.HasHeaderIgnoresCase` | lib/HTTPEvaluator.js:274-281 | `has_header` gives the same answer for two names that differ only in letter case |
| `Evaluator.HasHeaderFindsAnyCase` | lib/HTTPEvaluator.js:274-281 | when the map's names are lower-case, `has_header(h)` is true iff some header name equals `h` ignoring case |
| `Evaluator.HasHeaderValueOf` | lib/HTTPEvaluator.js:283-302 | for a value of any JavaScript kind: true only if `has_header` is true and the value is a string; then true iff the raw value equals the value or one of its untrimmed comma pieces does |
| `Evaluator.AnyPieceEquals` | lib/HTTPEvaluator.js:291-297 | the piece loop finds a match iff the value is a string and is one of the pieces |
| `Evaluator.HasHeaderValue` | lib/HTTPEvaluator.js:283-302 | with a string value: true only if `has_header` is true; then true iff the raw value equals the value or one of its untrimmed comma pieces does |
| `Evaluator.NumberNeverMatchesHeader` | lib/HTTPEvaluator.js:287-293 | with `content-length: 42` in the response, the number 42 does not match but the string `42` does, because `===` does not convert |
| `Evaluator.HasHeaderValueIsPieceOrWhole` | lib/HTTPEvaluator.js:287-299 | with no comma in the raw value, only an exact match counts; a value that holds a comma can only match the whole raw value |
| `Evaluator.HasHeaderValueIgnoresCase` | lib/HTTPEvaluator.js:284-285 | the value check gives the same answer for names that differ only in letter case |
| `Evaluator.HasHeaderValueUntrimmed` | lib/HTTPEvaluator.js:289-297 | for the raw value `a, b`, the value ` b` matches but `b` does not, because pieces are not trimmed |
| `Evaluator.HasHeaderValueListed` | lib/HTTPEvaluator.js:289-297 | for the raw value `a,b,c`, asked under the name `X`, the value `b` matches and `z` does not |
| `Evaluator.CountPresent` | lib/HTTPEvaluator.js:310-314 | the count of present names never exceeds the number of names |
| `Evaluator.CountMatching` | lib/HTTPEvaluator.js:317-323 | the count of matching pairs never exceeds the number of pairs |
| `Evaluator.PropertyOfDistinctKeys` | lib/HTTPEvaluator.js:320-321 | with distinct keys, as every object has, the property read under a pair's key is that pair's value |
| `Evaluator.Property` | lib/HTTPEvaluator.js:326 | an object's `length` property is the value of a pair keyed `length`, or `undefined` when no key is `length` |
| `Evaluator.CountPresentAll` | lib/HTTPEvaluator.js:310-314 | every name is counted iff every name passes `has_header` |
| `Evaluator.CountMatchingAll` | lib/HTTPEvaluator.js:317-323 | every pair is counted iff every pair passes `has_header_value` |
| `Evaluator.HasHeaders` | lib/HTTPEvaluator.js:307-331 | for an array, true iff every name passes `has_header`; for an object, true iff its `length` property is the number of matching pairs, so an object without a numeric `length` value is always rejected |
| `Evaluator.HasHeadersLoop` | lib/HTTPEvaluator.js:307-331 | the forward loop over names and the backward loop over object keys reach the reference count, which is at most the number of entries, and give the same answer as `HasHeaders` |
| `Evaluator.HasHeadersIntended` | lib/HTTPEvaluator.js:76-80 | with the count compared to the number of entries, an object passes iff every pair passes `has_header_value`; arrays are unchanged |
| `Evaluator.HasHeadersObjectRejected` | lib/HTTPEvaluator.js:316-330 | an object whose single pair matches the response is rejected as written and accepted as intended |
| `Evaluator.HasHeadersLengthKeyAccepted` | lib/HTTPEvaluator.js:316-330 | `{length: 0}` is accepted as written against any response, and `{"content-type": "text/html", length: 1}` against a response with that header; neither is accepted as intended |
| `Evaluator.ScanAgrees` | lib/HTTPEvaluator.js:248-252 | for a buffer as long as the body, the byte scan from index `i` succeeds iff the two agree from `i` to the end |
| `Evaluator.BodyIdenticalGiven` | lib/HTTPEvaluator.js:243-255 | given the outcome of evaluating the right operand of the length test: it throws iff that evaluation throws; a value other than the buffer's length gives false; the body's byte count gives true iff the buffer equals the body, with the scan bounded by the body's length |
| `Evaluator.BodyIdenticalAsWritten` | lib/HTTPEvaluator.js:242-244 | as written, `response_data.length` is the byte count, a number, so calling it throws before any byte is compared |
| `Evaluator.BodyIdenticalToBuffer` | lib/HTTPEvaluator.js:241-256 | false when the lengths differ; with equal lengths true iff every byte agrees, so a single changed byte makes it false; true iff the buffer equals the body; the same answer as the evaluation whose right operand is the body's byte count, the comparison the code intends |
| `Dispatcher.UrlReplacesOptions` | lib/HTTPEvaluator.js:160-190 | with a string `url`, the options sent hold only hostname, port, path and protocol of the parse; method, headers, params, post_data, encoding, secure and host are dropped; https is used iff the parsed protocol is `https:` |
| `Dispatcher.UrlRequestSendsAnyBody` | lib/HTTPEvaluator.js:160-215 | with a string `url` the method is gone, so nothing is written without a body, and any explicit body is sent: a string or buffer is the one chunk written, and a stream is piped |
| `Dispatcher.TransportFollowsCallerOptions` | lib/HTTPEvaluator.js:187-190 | without `url`, https is used iff the caller set `secure: true` or protocol `https:`; the params step changes neither |
| `Dispatcher.FormPostSendsEncodedParams` | lib/HTTPEvaluator.js:169-177 | params on a POST with no data and no post_data: content-type becomes form-urlencoded and content-length the encoded length; other headers and the path stay the same; post_data becomes the encoded params, and they are what is written; no other option changes |
| `Dispatcher.ReuseAfterFormPost` | lib/HTTPEvaluator.js:157-200 | the caller's options object is rewritten in place, so passing it again after a form POST puts the params on the path (the path twice, a separator and the params), keeps the headers, and writes the encoded params again |
| `Dispatcher.ParamsAppendedToPath` | lib/HTTPEvaluator.js:178-184 | otherwise the new path is the old path twice, then `&` if the old path held `?` and `?` if not, then the encoded params; no other option changes, headers and post_data included |
| `Dispatcher.NoBodyWritesOnlyForPost` | lib/HTTPEvaluator.js:196-200 | with no data, something is written iff the method upper-cases to POST; the chunk is post_data, set or not; otherwise the request is only ended |
| `Dispatcher.ExplicitBodyPlan` | lib/HTTPEvaluator.js:201-215 | with data: a method containing GET, HEAD or DELETE ends the request unwritten; otherwise a string or buffer is written once and then the request ends, and a stream is piped |
| `Dispatcher.UndefinedMethodTakesBody` | lib/HTTPEvaluator.js:202 | an undefined method is matched as the text "undefined", which does not count as a method that takes no body |
| `Dispatcher.BodylessMethodIgnoresCase` | lib/HTTPEvaluator.js:202 | `get` and `Delete` count as methods that take no body |
| `Dispatcher.BodylessMethodUnanchored` | lib/HTTPEvaluator.js:202 | `FORGET` and `unheady` count as methods that take no body, because the match is unanchored |
| `Dispatcher.BodyMethodsNotMatched` | lib/HTTPEvaluator.js:202 | `POST` and `put` are not treated as methods that take no body |
| `Dispatcher.AppendQueryIntended` | lib/HTTPEvaluator.js:178-184 | the corrected append keeps the text before the first `?` as it was; the query becomes the old query, `&` and the params, or just the params |
| `Dispatcher.PlanWriteIntended` | lib/HTTPEvaluator.js:196-200 | the corrected write step never writes `undefined`: with no data it writes iff the method is POST and post_data is set; with data it is the same as written |
| `Dispatcher.RequestWithDataIntended` | lib/HTTPEvaluator.js:157-215 | the corrected plan picks the same transport as the plan as written |
| `Dispatcher.IntendedDiffersOnlyInDefects` | lib/HTTPEvaluator.js:157-215 | the corrected and as-written plans differ only in the path, and only when params are appended; the write plans differ iff a POST has no data and no post_data |
| `Dispatcher.PathDoubled` | lib/HTTPEvaluator.js:180-182 | appending `x=1` to `/a` gives `/a/a?x=1` as written, whose path before `?` is `/a/a`; corrected, it gives `/a?x=1` |
| `Dispatcher.PostWithoutPostDataWritesUndefined` | lib/HTTPEvaluator.js:197-198 | a POST with no data, params or post_data writes `undefined` as written; corrected, it only ends the request |

## Left out

- The HTTP and HTTPS request calls, response streaming, `capture_http_response` and the StreamCatcher sink (`lib/HTTPEvaluator.js:192-194`, `218-234`) are left out. They are I/O and event-driven stream handling. StreamCatcher is not part of this model. The captured body is taken to be a byte sequence.
- `body_contains` and `body_matches` (`lib/HTTPEvaluator.js:259-268`) are left out. Their result depends on the JavaScript RegExp engine and on charset decoding.
- `body_identical_to_file` (`lib/HTTPEvaluator.js:236-239`) is left out. It reads a file synchronously, uses an `fs` that is never required, and calls a method that does not exist.
- `status_code_is` (`lib/HTTPEvaluator.js:270-272`) is left out. It reads `this.statusCode`, which nothing sets.
- `querystring.stringify` and `url.parse` are foreign library calls. They are function parameters, and nothing is assumed about their output. `stringify` is handed the params' pairs in `Object.keys` order, so two objects with the same pairs in a different order may encode differently.
- Two fields can be undefined on the params path and make the code fault: `options.method` when there is no data, and `options.headers` when a form body is built (`lib/HTTPEvaluator.js:172-176`). The model does not model these faults. It requires callers to supply the fields (`Dispatcher.ParamsStepDefined`).
- Case mapping covers ASCII letters only. The Unicode cases of `toLowerCase`/`toUpperCase` are not modelled. Examples: `"poſt".toUpperCase()` is `"POST"`, and some characters expand to two letters.
- The names in a `has_headers` array are strings. A non-string name makes `toLowerCase` throw, which is not modelled.
- Header values are strings. Node's array value for `set-cookie` is not modelled, and neither are keys inherited from the object prototype.
- The options record holds the fields the dispatcher reads or writes, `encoding` included. Other Node request options (agent, auth, …) are not modelled. Without a `url` they pass through untouched. With a string `url`, the options are replaced by a fresh object (`lib/HTTPEvaluator.js:162`), so they are dropped along with `encoding`; `Dispatcher.UrlReplacesOptions` states that `encoding` is then undefined, which makes the capture step (left out) fall back to utf8.
- A `url`, `params` or `data` of an unexpected JavaScript type is not modelled. Examples: a non-string `url`, `null` params, a `null` data argument.
- `null` is not a modelled value. A caller-supplied `path: null` without a `url` makes the params step build `"nullnull?"` and the params (`lib/HTTPEvaluator.js:179-182`). The model can only express an undefined path, which it coerces to "undefined".
- `content-length` is the length of the encoded string counted in characters. `querystring.stringify` produces ASCII, where this equals the UTF-16 length the code reads.
- A caller-supplied `post_data` is a string in the model. A `Buffer` given as `post_data` (`lib/HTTPEvaluator.js:122-125`) is not modelled; it would be written as a buffer chunk.
- What Node does when `req.write` is handed `undefined` is not modelled. Node throws `ERR_INVALID_ARG_TYPE` there, after the request is created. The plan records the write of an `UndefinedChunk`.
- Without a `url`, the code rewrites the caller's own options object, and the headers object inside it, in place (`lib/HTTPEvaluator.js:157`, `175-182`). The model returns the rewritten options in the plan. After the call the caller's object equals `plan.options`; `Dispatcher.ReuseAfterFormPost` states what a second call with it does.
- The live-network test `test-sample/test/t-ionzero.js` and the iz-objects class machinery are left out. They contain no logic of this component.

## Findings

| source | as written | input that shows it | evidently intended | confidence | as-written member | corrected member |
|---|---|---|---|---|---|---|
| lib/HTTPEvaluator.js:326 | `found === headers.length` with an object argument, whose `length` is `undefined` unless it has a `length` key | response with `content-type: text/html`, argument `{"content-type": "text/html"}` gives false; `{length: 0}` gives true | true when every pair matches, as lines 76-80 document | high; not executed | `Evaluator.HasHeadersObjectRejected` | `Evaluator.HasHeadersIntended` |
| lib/HTTPEvaluator.js:244 | `buf.length !== response_data.length()` calls a number | body `[1]`, buffer `[1]` throws a TypeError | compare `buf.length` with `response_data.length` | high; not executed | `Evaluator.BodyIdenticalAsWritten` | `Evaluator.BodyIdenticalToBuffer` |
| lib/HTTPEvaluator.js:180-182 | `options.path += options.path + sep + encoded` | path `/a`, params encoding to `x=1`, GET, gives `/a/a?x=1` | `/a?x=1` | high; not executed | `Dispatcher.PathDoubled` | `Dispatcher.AppendQueryIntended` |
| lib/HTTPEvaluator.js:197 | `typeof options.post_data !== undefined` is always true | POST with no data, no params, no post_data writes `undefined`, and Node's `req.write(undefined)` throws `ERR_INVALID_ARG_TYPE` | `typeof options.post_data !== 'undefined'` | high; not executed | `Dispatcher.PostWithoutPostDataWritesUndefined` | `Dispatcher.PlanWriteIntended` |
