/**
 * `request_with_data` as a pure plan: from the caller's options and the
 * optional explicit body to the options handed to the HTTP client, the
 * transport it is handed to, and what is written on the request before it
 * is ended. `querystring.stringify` and `url.parse` are parameters.
 */
module Dispatcher {
  import opened Js

  /** A request header value: text, or the number stored for `content-length`. */
  datatype HeaderValue = Text(text: string) | Length(count: nat)

  /**
   * The options fields the dispatcher reads or writes. `url` is present only
   * when it holds a string; `params` is the params object's own pairs in
   * `Object.keys` order, which is the order `querystring.stringify` encodes
   * them in; `encoding` is read back when the response is captured;
   * `secure` records whether it holds the boolean `true`.
   */
  datatype Options = Options(
    url: Option<string>,
    host: Option<string>,
    hostname: Option<string>,
    port: Option<string>,
    path: Option<string>,
    protocol: Option<string>,
    httpMethod: Option<string>,
    headers: Option<map<string, HeaderValue>>,
    params: Option<seq<(string, string)>>,
    postData: Option<string>,
    encoding: Option<string>,
    secure: bool)

  /** The fields of a parsed URL that are copied over. */
  datatype UrlParts = UrlParts(hostname: Option<string>, port: Option<string>,
                               path: Option<string>, protocol: Option<string>)

  /** The `data` argument: absent, a string, a `Buffer`, or a readable stream. */
  datatype Body = NoBody | TextBody(text: string) | BufferBody(bytes: seq<byte>) | StreamBody

  datatype Transport = Http | Https

  /** What `req.write` is handed. */
  datatype Chunk = TextChunk(text: string) | BufferChunk(bytes: seq<byte>) | UndefinedChunk

  /** What happens to the request after it is created. */
  datatype WritePlan =
    | EndOnly                    // req.end()
    | WriteThenEnd(chunk: Chunk) // req.write(chunk); req.end()
    | PipeThenEnd                // data.pipe(req), req.end() on the stream's 'end'

  datatype Plan = Plan(options: Options, transport: Transport, write: WritePlan)

  const FormContentType := "application/x-www-form-urlencoded"

  // ---------------------------------------------------------------------------
  // The steps of request_with_data
  // ---------------------------------------------------------------------------

  /** A string `url` replaces the whole options object by four fields of its parse. */
  function NormaliseUrl(o: Options, parse: string -> UrlParts): Options
  {
    match o.url
    case None => o
    case Some(u) =>
      var p := parse(u);
      Options(None, None, p.hostname, p.port, p.path, p.protocol, None, None, None, None, None, false)
  }

  /** `method.toUpperCase() === 'POST'` for a method that is set. */
  predicate IsPost(httpMethod: Option<string>)
  {
    httpMethod.Some? && ToUpperCase(httpMethod.value) == "POST"
  }

  /** The params become a form body: no explicit body, a POST, and no `post_data` of the caller's. */
  predicate UsesFormBody(o: Options, body: Body)
  {
    body.NoBody? && IsPost(o.httpMethod) && o.postData.None?
  }

  /**
   * The params step reads `method` whenever there is no explicit body, and
   * writes into `headers` when the params become a form body; either being
   * undefined there is a fault, so callers must supply them.
   */
  predicate ParamsStepDefined(o: Options, body: Body)
  {
    o.params.Some? && body.NoBody? ==> o.httpMethod.Some? && (UsesFormBody(o, body) ==> o.headers.Some?)
  }

  /**
   * The path after appending the params, as written: `path += path + sep +
   * encoded`, so the old path appears twice. `sep` is "&" when the path
   * already holds a "?". An undefined path is coerced to "undefined".
   */
  function AppendQuery(path: Option<string>, encoded: string): string
  {
    var p := Coerce(path);
    var sep := if '?' in p then '&' else '?';
    p + p + [sep] + encoded
  }

  /** The params step: a form body for a plain POST, else a query string on the path. */
  function ApplyParams(o: Options, body: Body, stringify: seq<(string, string)> -> string): Options
    requires ParamsStepDefined(o, body)
  {
    match o.params
    case None => o
    case Some(ps) =>
      var encoded := stringify(ps);
      if UsesFormBody(o, body) then
        var h := o.headers.value["content-type" := Text(FormContentType)]["content-length" := Length(|encoded|)];
        o.(headers := Some(h), postData := Some(encoded))
      else
        o.(path := Some(AppendQuery(o.path, encoded)))
  }

  /** Secure transport when `secure === true` or `protocol === 'https:'`. */
  function SelectTransport(o: Options): Transport
  {
    if o.secure || o.protocol == Some("https:") then Https else Http
  }

  /** `/(GET|HEAD|DELETE)/i.test(method)`: unanchored, case-insensitive, on the coerced method. */
  predicate MatchesBodyless(httpMethod: Option<string>)
  {
    var m := ToUpperCase(Coerce(httpMethod));
    Includes(m, "GET") || Includes(m, "HEAD") || Includes(m, "DELETE")
  }

  /** What `req.write(options.post_data)` is handed. */
  function PostDataChunk(postData: Option<string>): Chunk
  {
    if postData.None? then UndefinedChunk else TextChunk(postData.value)
  }

  /**
   * The write step, as written. Without a body, `typeof post_data !==
   * undefined` compares a type name with the value `undefined`, so every POST
   * writes `post_data` whether it is set or not.
   */
  function PlanWrite(o: Options, body: Body): WritePlan
  {
    if body.NoBody? then
      if IsPost(o.httpMethod) && !StrictEquals(Str(TypeOf(o.postData)), Undefined) then
        WriteThenEnd(PostDataChunk(o.postData))
      else EndOnly
    else if MatchesBodyless(o.httpMethod) then EndOnly
    else if body.TextBody? then WriteThenEnd(TextChunk(body.text))
    else if body.BufferBody? then WriteThenEnd(BufferChunk(body.bytes))
    else PipeThenEnd
  }

  /** `request_with_data(options, data, callback)` up to the point where the request is sent. */
  function RequestWithData(o: Options, body: Body, stringify: seq<(string, string)> -> string,
                           parse: string -> UrlParts): Plan
    requires o.url.None? ==> ParamsStepDefined(o, body)
  {
    var a := ApplyParams(NormaliseUrl(o, parse), body, stringify);
    Plan(a, SelectTransport(a), PlanWrite(a, body))
  }

  // ---------------------------------------------------------------------------
  // Properties of the plan
  // ---------------------------------------------------------------------------

  /**
   * With a string `url`, the options sent hold exactly hostname, port, path
   * and protocol of its parse; method, headers, params, post_data, encoding,
   * secure and host are gone, and the transport depends on the parsed
   * protocol alone.
   */
  lemma UrlReplacesOptions(o: Options, body: Body, stringify: seq<(string, string)> -> string,
                           parse: string -> UrlParts)
    requires o.url.Some?
    ensures var p := parse(o.url.value);
            var plan := RequestWithData(o, body, stringify, parse);
            && plan.options.hostname == p.hostname && plan.options.port == p.port
            && plan.options.path == p.path && plan.options.protocol == p.protocol
            && plan.options.url.None? && plan.options.host.None?
            && plan.options.httpMethod.None? && plan.options.headers.None?
            && plan.options.params.None? && plan.options.postData.None? && !plan.options.secure
            && plan.options.encoding.None?
            && (plan.transport == Https <==> p.protocol == Some("https:"))
  {
  }

  /**
   * Because the method is dropped with the rest of the options, a request
   * made from a `url` ends without writing when there is no body and always
   * sends an explicit body, even one meant for a GET.
   */
  lemma UrlRequestSendsAnyBody(o: Options, body: Body, stringify: seq<(string, string)> -> string,
                               parse: string -> UrlParts)
    requires o.url.Some?
    ensures var plan := RequestWithData(o, body, stringify, parse);
            && (body.NoBody? <==> plan.write == EndOnly)
            && (body.TextBody? ==> plan.write == WriteThenEnd(TextChunk(body.text)))
            && (body.BufferBody? ==> plan.write == WriteThenEnd(BufferChunk(body.bytes)))
            && (body.StreamBody? ==> plan.write == PipeThenEnd)
  {
    UndefinedMethodTakesBody();
  }

  /** An undefined method is coerced to "undefined", which holds none of GET, HEAD and DELETE. */
  lemma UndefinedMethodTakesBody()
    ensures !MatchesBodyless(None)
  {
    MissingLetterNotIncludedUpper("undefined", "GET", 0);
    MissingLetterNotIncludedUpper("undefined", "HEAD", 0);
    MissingLetterNotIncludedUpper("undefined", "DELETE", 2);
  }

  /** Without a `url`, https is used iff the caller set `secure: true` or protocol "https:". */
  lemma TransportFollowsCallerOptions(o: Options, body: Body, stringify: seq<(string, string)> -> string,
                                      parse: string -> UrlParts)
    requires o.url.None? && ParamsStepDefined(o, body)
    ensures var plan := RequestWithData(o, body, stringify, parse);
            (plan.transport == Https <==> o.secure || o.protocol == Some("https:"))
  {
  }

  /**
   * Params on a plain POST become the body: content-type and content-length
   * are overwritten, every other header and the path stay, and the encoded
   * params are what is written before the request ends.
   */
  lemma FormPostSendsEncodedParams(o: Options, stringify: seq<(string, string)> -> string,
                                   parse: string -> UrlParts)
    requires o.url.None? && o.params.Some? && UsesFormBody(o, NoBody) && o.headers.Some?
    ensures var encoded := stringify(o.params.value);
            var plan := RequestWithData(o, NoBody, stringify, parse);
            var h := plan.options.headers;
            && h.Some?
            && h.value.Keys == o.headers.value.Keys + {"content-type", "content-length"}
            && h.value["content-type"] == Text(FormContentType)
            && h.value["content-length"] == Length(|encoded|)
            && (forall k :: k in o.headers.value && k != "content-type" && k != "content-length" ==>
                              h.value[k] == o.headers.value[k])
            && plan.options.postData == Some(encoded)
            && plan.options.path == o.path
            && plan.options == o.(headers := plan.options.headers, postData := plan.options.postData)
            && plan.write == WriteThenEnd(TextChunk(encoded))
  {
  }

  /**
   * Without a `url` the caller's own options object is the one rewritten, so
   * handing it to a second call sends the rewritten options: after a form
   * POST it now holds `post_data`, the params go on the path instead (the
   * path twice, a separator and the encoded params), the headers stay as the
   * first call left them, and the same encoded params are written again.
   */
  lemma ReuseAfterFormPost(o: Options, stringify: seq<(string, string)> -> string,
                           parse: string -> UrlParts)
    requires o.url.None? && o.params.Some? && UsesFormBody(o, NoBody) && o.headers.Some?
    ensures var encoded := stringify(o.params.value);
            var first := RequestWithData(o, NoBody, stringify, parse);
            var second := RequestWithData(first.options, NoBody, stringify, parse);
            && second.options.path == Some(AppendQuery(o.path, encoded))
            && second.options.headers == first.options.headers
            && second.options.postData == Some(encoded)
            && second.write == WriteThenEnd(TextChunk(encoded))
  {
  }

  /**
   * Otherwise params go on the path as written: the old path twice, then "&"
   * if it held a "?" or else "?", then the encoded params; headers and
   * post_data are untouched.
   */
  lemma ParamsAppendedToPath(o: Options, body: Body, stringify: seq<(string, string)> -> string,
                             parse: string -> UrlParts)
    requires o.url.None? && o.params.Some? && ParamsStepDefined(o, body) && !UsesFormBody(o, body)
    ensures var prev := Coerce(o.path);
            var encoded := stringify(o.params.value);
            var plan := RequestWithData(o, body, stringify, parse);
            && plan.options.path.Some?
            && |plan.options.path.value| == 2 * |prev| + 1 + |encoded|
            && plan.options.path.value[..|prev|] == prev
            && plan.options.path.value[|prev|..2 * |prev|] == prev
            && plan.options.path.value[2 * |prev|] == (if '?' in prev then '&' else '?')
            && plan.options.path.value[2 * |prev| + 1..] == encoded
            && plan.options.headers == o.headers && plan.options.postData == o.postData
            && plan.options == o.(path := plan.options.path)
  {
  }

  /** Without a body: `post_data` is written iff the method is a POST, and the request is ended. */
  lemma NoBodyWritesOnlyForPost(o: Options, stringify: seq<(string, string)> -> string,
                                parse: string -> UrlParts)
    requires o.url.None? ==> ParamsStepDefined(o, NoBody)
    ensures var plan := RequestWithData(o, NoBody, stringify, parse);
            && (plan.write.WriteThenEnd? <==> IsPost(plan.options.httpMethod))
            && (plan.write.WriteThenEnd? ==> plan.write.chunk == PostDataChunk(plan.options.postData))
            && (!plan.write.WriteThenEnd? ==> plan.write == EndOnly)
            && (o.url.None? ==> plan.options.httpMethod == o.httpMethod)
  {
  }

  /**
   * With a body: a GET, HEAD or DELETE anywhere in the method ends the
   * request unwritten; otherwise a string or buffer is written once and a
   * stream is piped. The params never change what is written.
   */
  lemma ExplicitBodyPlan(o: Options, body: Body, stringify: seq<(string, string)> -> string,
                         parse: string -> UrlParts)
    requires !body.NoBody? && (o.url.None? ==> ParamsStepDefined(o, body))
    ensures var plan := RequestWithData(o, body, stringify, parse);
            var m := plan.options.httpMethod;
            && (MatchesBodyless(m) ==> plan.write == EndOnly)
            && (!MatchesBodyless(m) && body.TextBody? ==> plan.write == WriteThenEnd(TextChunk(body.text)))
            && (!MatchesBodyless(m) && body.BufferBody? ==> plan.write == WriteThenEnd(BufferChunk(body.bytes)))
            && (!MatchesBodyless(m) && body.StreamBody? ==> plan.write == PipeThenEnd)
            && (o.url.None? ==> m == o.httpMethod)
  {
  }

  /** The method test ignores case: "get" and "Delete" match. */
  lemma BodylessMethodIgnoresCase()
    ensures MatchesBodyless(Some("get")) && MatchesBodyless(Some("Delete"))
  {
    assert ToUpperCase("get") == "GET";
    IncludesAt("GET", "GET", 0);
    assert ToUpperCase("Delete") == "DELETE";
    IncludesAt("DELETE", "DELETE", 0);
  }

  /** The method test is unanchored: "FORGET" and "unheady" match too. */
  lemma BodylessMethodUnanchored()
    ensures MatchesBodyless(Some("FORGET")) && MatchesBodyless(Some("unheady"))
  {
    assert ToUpperCase("FORGET") == "FORGET";
    assert OccursAt("FORGET", "GET", 3);
    IncludesAt("FORGET", "GET", 3);
    assert ToUpperCase("unheady") == "UNHEADY";
    assert OccursAt("UNHEADY", "HEAD", 2);
    IncludesAt("UNHEADY", "HEAD", 2);
  }

  /** "POST" and "put" do not match the method test. */
  lemma BodyMethodsNotMatched()
    ensures !MatchesBodyless(Some("POST")) && !MatchesBodyless(Some("put"))
  {
    MissingLetterNotIncludedUpper("POST", "GET", 0);
    MissingLetterNotIncludedUpper("POST", "HEAD", 0);
    MissingLetterNotIncludedUpper("POST", "DELETE", 0);
    MissingLetterNotIncludedUpper("put", "GET", 0);
    MissingLetterNotIncludedUpper("put", "HEAD", 0);
    MissingLetterNotIncludedUpper("put", "DELETE", 0);
  }

  // ---------------------------------------------------------------------------
  // The plan as evidently intended
  // ---------------------------------------------------------------------------

  /** The path after appending the params, written once before the separator. */
  function AppendQueryIntended(path: Option<string>, encoded: string): (r: string)
    ensures Before(r, '?') == Before(Coerce(path), '?')
    ensures '?' in Coerce(path) ==> After(r, '?') == After(Coerce(path), '?') + "&" + encoded
    ensures '?' !in Coerce(path) ==> After(r, '?') == encoded
  {
    var p := Coerce(path);
    if '?' in p then
      FirstOccurrenceKept(p, '?', "&" + encoded);
      assert p + "&" + encoded == p + ("&" + encoded);
      p + "&" + encoded
    else
      FirstOccurrenceAppended(p, '?', encoded);
      BeforeWithout(p, '?');
      p + "?" + encoded
  }

  /** The write step with `typeof post_data !== 'undefined'`: an unset `post_data` is not written. */
  function PlanWriteIntended(o: Options, body: Body): (w: WritePlan)
    ensures !(w.WriteThenEnd? && w.chunk.UndefinedChunk?)
    ensures body.NoBody? ==> (w.WriteThenEnd? <==> IsPost(o.httpMethod) && o.postData.Some?)
    ensures !body.NoBody? ==> w == PlanWrite(o, body)
  {
    if body.NoBody? then
      if IsPost(o.httpMethod) && TypeOf(o.postData) != "undefined" then
        WriteThenEnd(TextChunk(o.postData.value))
      else EndOnly
    else PlanWrite(o, body)
  }

  /** `request_with_data` with both corrections. */
  function RequestWithDataIntended(o: Options, body: Body, stringify: seq<(string, string)> -> string,
                                   parse: string -> UrlParts): (plan: Plan)
    requires o.url.None? ==> ParamsStepDefined(o, body)
    ensures plan.transport == RequestWithData(o, body, stringify, parse).transport
  {
    var n := NormaliseUrl(o, parse);
    var a :=
      if n.params.Some? && !UsesFormBody(n, body) then
        n.(path := Some(AppendQueryIntended(n.path, stringify(n.params.value))))
      else ApplyParams(n, body, stringify);
    Plan(a, SelectTransport(a), PlanWriteIntended(a, body))
  }

  /**
   * The corrected plan differs from the plan as written only on the path
   * when params are appended, and on the write when a POST without body has
   * no `post_data`.
   */
  lemma IntendedDiffersOnlyInDefects(o: Options, body: Body, stringify: seq<(string, string)> -> string,
                                     parse: string -> UrlParts)
    requires o.url.None? ==> ParamsStepDefined(o, body)
    ensures var w := RequestWithData(o, body, stringify, parse);
            var c := RequestWithDataIntended(o, body, stringify, parse);
            && c.options == w.options.(path := c.options.path)
            && (o.url.Some? || o.params.None? || UsesFormBody(o, body) ==> c.options == w.options)
            && (c.write != w.write <==>
                  body.NoBody? && IsPost(w.options.httpMethod) && w.options.postData.None?)
  {
  }

  /**
   * Appending "x=1" to "/a": as written the resource path becomes "/a/a";
   * corrected it stays "/a" with query "x=1".
   */
  lemma PathDoubled()
    ensures AppendQuery(Some("/a"), "x=1") == "/a/a?x=1"
    ensures Before(AppendQuery(Some("/a"), "x=1"), '?') == "/a/a"
    ensures AppendQueryIntended(Some("/a"), "x=1") == "/a?x=1"
    ensures Before(AppendQueryIntended(Some("/a"), "x=1"), '?') == "/a"
  {
  }

  /** A POST with neither body, params nor post_data writes `undefined` as written, nothing as corrected. */
  lemma PostWithoutPostDataWritesUndefined(stringify: seq<(string, string)> -> string,
                                          parse: string -> UrlParts)
    ensures var o := Options(None, None, Some("example.com"), None, Some("/"), None,
                             Some("post"), Some(map[]), None, None, None, false);
            && RequestWithData(o, NoBody, stringify, parse).write == WriteThenEnd(UndefinedChunk)
            && RequestWithDataIntended(o, NoBody, stringify, parse).write == EndOnly
  {
  }
}
