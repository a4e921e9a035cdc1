/** `iCurl::request` and the logic of `execute` around the transport:
    the request headers are flattened to `"name: value"` lines, the verb
    selects how the call is made, the transport's reply is classified,
    and the response body is optionally JSON-decoded. The transport
    (`init` plus `curl_exec` and friends) is a parameter that maps the
    call to its reply. */
module ICurl {
  import opened PhpValues
  import opened PhpStrings
  import opened ResponseHeaders
  import opened RequestEncoding

  /** The option key `init` removes before handing the options to curl. */
  const TypeOption: string := "CURl_I_TYPE"

  const SuccessMessage: string := "The operation was successful."

  /** How the request is sent: `CURLOPT_POST`, or `CURLOPT_CUSTOMREQUEST`
      with the given verb; a plain GET sets neither. */
  datatype Verb = Get | Post | Custom(name: string)

  /** What the client hands to curl: the URL, the verb, the body set with
      `CURLOPT_POSTFIELDS` (if any), the header lines and the options. */
  datatype TransportCall = TransportCall(
    url: string, verb: Verb, body: Option<Value>, headers: seq<string>, options: PhpArray<Value>)

  /** What `execute` reads back from curl: `curl_errno`, the
      `CURLINFO_HTTP_CODE`, the raw response with its headers in front,
      `CURLINFO_HEADER_SIZE`, `curl_getinfo` and `curl_error`. The raw
      response is a PHP byte string, one byte per `char`, so `headerSize`
      (a byte count) indexes it directly. */
  datatype TransportReply = TransportReply(
    errno: int, httpCode: int, raw: string, headerSize: nat, info: Value, error: string)

  /** The `code` entry of a result: an integer, or a tagged string. */
  datatype ResultCode = Numeric(n: int) | Tagged(tag: string)

  /** The array `execute` returns, entry by entry; `response` is absent
      (`None`) after a transport error. */
  datatype Outcome = Outcome(
    status: bool,
    code: ResultCode,
    message: string,
    response: Option<Value>,
    responseHeaders: PhpArray<Option<string>>,
    requestInfo: Value,
    requestHeaders: seq<string>,
    options: PhpArray<Value>)

  /** `"{$index}"` for an array key. */
  function KeyText(k: Key): string {
    match k
    case IntKey(i) => IntToDecimal(i)
    case StrKey(s) => s
  }

  /** The header list `request` builds: `"{$index}: {$header}"` for every
      entry, in order. */
  function Flattened(headers: seq<(Key, string)>): seq<string> {
    seq(|headers|, i requires 0 <= i < |headers| => KeyText(headers[i].0) + ": " + headers[i].1)
  }

  /** The `foreach` loop of `request` that builds `$formattedHeaders`. */
  method FlattenHeaders(headers: PhpArray<string>) returns (flat: seq<string>)
    ensures flat == Flattened(headers)
  {
    flat := [];
    var i := 0;
    while i < |headers|
      invariant 0 <= i <= |headers|
      invariant flat == Flattened(headers[..i])
    {
      var (index, header) := headers[i];
      flat := flat + [KeyText(index) + ": " + header];
      i := i + 1;
    }
    assert headers[..|headers|] == headers;
  }

  /** A flattened line splits back at its first ": " into the key and
      the value, when the key holds no ": ". */
  lemma FlattenedSplitsBack(headers: seq<(Key, string)>, i: nat)
    requires i < |headers| && !Contains(KeyText(headers[i].0), ": ")
    ensures |Flattened(headers)| == |headers|
    ensures SplitOnce(Flattened(headers)[i], ": ") == (KeyText(headers[i].0), Some(headers[i].1))
  {
    SplitOnceJoined(KeyText(headers[i].0), headers[i].1);
  }

  /** `get_content_type` reads from a flattened line the trimmed value up
      to its first `:`, when the key holds no `:`. */
  lemma FlattenedContentType(headers: seq<(Key, string)>, i: nat)
    requires i < |headers| && !Contains(KeyText(headers[i].0), ":")
    ensures |Flattened(headers)| == |headers|
    ensures ContentTypeValue(Flattened(headers)[i]) == Trim(SplitOnce(headers[i].1, ":").0)
  {
    ContentTypeOfEntry(KeyText(headers[i].0), headers[i].1);
  }

  /** The options `init` passes to `curl_setopt_array`. */
  function TransportOptions(options: PhpArray<Value>): (r: PhpArray<Value>)
    ensures Lookup(r, StrKey(TypeOption)).None?
    ensures forall k :: k != StrKey(TypeOption) ==> Lookup(r, k) == Lookup(options, k)
  {
    Remove(options, StrKey(TypeOption))
  }

  /** The body `post` and `other` set: `convert_data` of the data, and
      nothing when the data is falsy. */
  function RequestBody(flat: seq<string>, data: Value, codecs: Codecs): (r: Option<Value>)
    ensures r.Some? <==> Truthy(data)
  {
    if Truthy(data) then Some(ConvertData(flat, data, codecs)) else None
  }

  /** The `switch` of `request` together with `get`, `post`, `delete`,
      `put` and `other`: the call made for `method`. */
  function Dispatch(
    httpMethod: string, endpoint: string, params: PhpArray<Value>, data: Value,
    flat: seq<string>, options: PhpArray<Value>, codecs: Codecs): TransportCall
  {
    var url := Endpoint(endpoint, params, codecs);
    var sent := TransportOptions(options);
    var verb := Upper(httpMethod);
    if verb == "GET" then TransportCall(url, Get, None, flat, sent)
    else if verb == "POST" then TransportCall(url, Post, RequestBody(flat, data, codecs), flat, sent)
    else if verb == "DELETE" then TransportCall(url, Custom("DELETE"), RequestBody(flat, data, codecs), flat, sent)
    else if verb == "PUT" then TransportCall(url, Custom("PUT"), RequestBody(flat, data, codecs), flat, sent)
    else TransportCall(url, Custom(verb), RequestBody(flat, data, codecs), flat, sent)
  }

  /** The method is matched case-insensitively: GET sends no body, POST
      uses `CURLOPT_POST`, and every other verb, upper-cased, becomes a
      custom request. Every call goes to the composed endpoint with the
      flattened headers and without the `CURl_I_TYPE` option, and a body
      is sent exactly when the verb is not GET and the data is truthy. */
  lemma DispatchSpec(
    httpMethod: string, endpoint: string, params: PhpArray<Value>, data: Value,
    flat: seq<string>, options: PhpArray<Value>, codecs: Codecs)
    ensures var call := Dispatch(httpMethod, endpoint, params, data, flat, options, codecs);
      && call.url == Endpoint(endpoint, params, codecs)
      && call.headers == flat
      && call.options == TransportOptions(options)
      && (call.verb == Get <==> Upper(httpMethod) == "GET")
      && (call.verb == Post <==> Upper(httpMethod) == "POST")
      && (call.verb.Custom? ==> call.verb.name == Upper(httpMethod))
      && (call.body.Some? <==> Upper(httpMethod) != "GET" && Truthy(data))
      && (call.body.Some? ==> call.body.value == ConvertData(flat, data, codecs))
  {
  }

  /** `substr($response, 0, $header_size)` and `substr($response,
      $header_size)`: a size past the end takes the whole response. */
  function HeaderBlock(reply: TransportReply): string {
    if reply.headerSize <= |reply.raw| then reply.raw[..reply.headerSize] else reply.raw
  }

  function RawBody(reply: TransportReply): string {
    if reply.headerSize <= |reply.raw| then reply.raw[reply.headerSize..] else ""
  }

  /** The header block and the body make up the raw response. */
  lemma SplitResponse(reply: TransportReply)
    ensures HeaderBlock(reply) + RawBody(reply) == reply.raw
  {
  }

  /** The body after `execute`'s optional inflation: `zlib_decode` runs
      exactly when the response header `content-encoding` is exactly
      "gzip", and its failure gives `false`. */
  function ResponseBody(reply: TransportReply, codecs: Codecs): (r: Value)
    ensures Lookup(HeaderArray(HeaderBlock(reply)), StrKey("content-encoding")) != Some(Some("gzip")) ==>
      r == Text(RawBody(reply))
    ensures Lookup(HeaderArray(HeaderBlock(reply)), StrKey("content-encoding")) == Some(Some("gzip")) ==>
      r == match codecs.zlibDecode(RawBody(reply)) case Some(s) => Text(s) case None => Boolean(false)
  {
    var headers := HeaderArray(HeaderBlock(reply));
    var output := RawBody(reply);
    if Lookup(headers, StrKey("content-encoding")) == Some(Some("gzip")) then
      match codecs.zlibDecode(output)
      case Some(s) => Text(s)
      case None => Boolean(false)
    else Text(output)
  }

  const EncodingName: string := "content-encoding"

  /** The body is inflated exactly when the last response header line
      named `content-encoding` reads exactly "content-encoding: gzip":
      the name and the value are compared case-sensitively. */
  lemma GzipTrigger(block: string)
    ensures Lookup(HeaderArray(block), StrKey(EncodingName)) == Some(Some("gzip")) <==>
      match LastNamedIndex(LaterLines(block), EncodingName)
      case Some(j) => LaterLines(block)[j] == EncodingName + ": gzip"
      case None => false
  {
    HeaderLookup(block, EncodingName);
    match LastNamedIndex(LaterLines(block), EncodingName)
    case None =>
    case Some(j) =>
      LastNamedIndexSpec(LaterLines(block), EncodingName);
      NamedLineValue(LaterLines(block)[j], EncodingName, "gzip");
      assert EncodingName + ": gzip" == EncodingName + ": " + "gzip";
  }

  /** A line named `name` carries the value `value` exactly when it is
      `name: value`. */
  lemma NamedLineValue(line: string, name: string, value: string)
    requires Named(line, name)
    ensures SplitOnce(line, ": ").1 == Some(value) <==> line == name + ": " + value
  {
    SplitOnceSpec(line, ": ");
    if line == name + ": " + value {
      SplitOnceJoined(name, value);
    }
  }

  /** The tag of a failed HTTP exchange: `"h_" . $http_code`. */
  function HttpTag(httpCode: int): string {
    "h_" + IntToDecimal(httpCode)
  }

  /** Tags of distinct HTTP codes are distinct, and the code can be read
      back from its tag. */
  lemma HttpTagRoundTrip(httpCode: nat)
    ensures var tag := HttpTag(httpCode);
      |tag| > 2 && tag[..2] == "h_" && AllDigits(tag[2..]) && DecimalValue(tag[2..]) == httpCode
  {
    var tag := HttpTag(httpCode);
    assert tag[2..] == NatToDecimal(httpCode);
    DecimalRoundTrip(httpCode);
  }

  lemma HttpTagInjective(a: nat, b: nat)
    requires HttpTag(a) == HttpTag(b)
    ensures a == b
  {
    assert HttpTag(a)[2..] == NatToDecimal(a);
    assert HttpTag(b)[2..] == NatToDecimal(b);
    DecimalInjective(a, b);
  }

  /** `iCurl::execute` after the transport has run: the status, code and
      message, the body, the parsed response headers, and the request's
      own headers and options (the options as given, `CURl_I_TYPE`
      included). */
  function Execute(reply: TransportReply, requestHeaders: seq<string>, options: PhpArray<Value>, codecs: Codecs): (r: Outcome)
    ensures r.status <==> reply.errno == 0 && reply.httpCode == 200
    ensures reply.errno != 0 ==> r.code == Numeric(-100) && r.response.None? && r.message == reply.error
    ensures reply.errno == 0 && reply.httpCode != 200 ==>
      r.code == Tagged(HttpTag(reply.httpCode)) && r.message == reply.error
      && r.response == Some(ResponseBody(reply, codecs))
    ensures reply.errno == 0 && reply.httpCode == 200 ==>
      r.code == Numeric(200) && r.message == SuccessMessage && r.response == Some(ResponseBody(reply, codecs))
    ensures r.responseHeaders == HeaderArray(HeaderBlock(reply)) && r.requestInfo == reply.info
    ensures r.requestHeaders == requestHeaders && r.options == options
  {
    var headers := HeaderArray(HeaderBlock(reply));
    var output := ResponseBody(reply, codecs);
    if reply.errno != 0 then
      Outcome(false, Numeric(-100), reply.error, None, headers, reply.info, requestHeaders, options)
    else if reply.httpCode != 200 then
      Outcome(false, Tagged(HttpTag(reply.httpCode)), reply.error, Some(output), headers, reply.info, requestHeaders, options)
    else
      Outcome(true, Numeric(200), SuccessMessage, Some(output), headers, reply.info, requestHeaders, options)
  }

  /** `status` is true exactly when `code` is the integer 200: the error
      code -100 and the tagged codes never equal it. */
  lemma StatusMatchesCode(reply: TransportReply, requestHeaders: seq<string>, options: PhpArray<Value>, codecs: Codecs)
    ensures var r := Execute(reply, requestHeaders, options, codecs);
      r.status <==> r.code == Numeric(200)
    ensures var r := Execute(reply, requestHeaders, options, codecs);
      r.response.None? <==> reply.errno != 0
  {
  }

  /** `iCurl::json_decode`: the decoded value, or the input itself when
      decoding fails. */
  function JsonDecode(response: Value, codecs: Codecs): (r: Value)
    ensures codecs.jsonDecode(response).None? ==> r == response
    ensures codecs.jsonDecode(response).Some? ==> r == codecs.jsonDecode(response).value
  {
    match codecs.jsonDecode(response)
    case Some(decoded) => decoded
    case None => response
  }

  /** `isset($result['response'])`: present and not null. */
  predicate HasResponse(result: Outcome) {
    result.response.Some? && result.response.value != Null
  }

  /** The last step of `request`: decode the response when `is_json` is
      set and the response is there; nothing else changes. */
  function DecodeResponse(result: Outcome, isJson: bool, codecs: Codecs): (r: Outcome)
    ensures isJson && HasResponse(result) ==>
      r == result.(response := Some(JsonDecode(result.response.value, codecs)))
    ensures !(isJson && HasResponse(result)) ==> r == result
  {
    if isJson && HasResponse(result) then
      result.(response := Some(JsonDecode(result.response.value, codecs)))
    else result
  }

  /** What `iCurl::request` sends and returns, for a transport that
      answers `call` with `transport(call)`. */
  function RequestOf(
    base: string, url: string, params: PhpArray<Value>, data: Value, headers: PhpArray<string>,
    httpMethod: string, options: PhpArray<Value>, isJson: bool, codecs: Codecs,
    transport: TransportCall -> TransportReply): (TransportCall, Outcome)
  {
    var flat := Flattened(headers);
    var call := Dispatch(httpMethod, base + url, params, data, flat, options, codecs);
    var outcome := Execute(transport(call), flat, options, codecs);
    (call, DecodeResponse(outcome, isJson, codecs))
  }

  /** `iCurl::request`. */
  method Request(
    base: string, url: string, params: PhpArray<Value>, data: Value, headers: PhpArray<string>,
    httpMethod: string, options: PhpArray<Value>, isJson: bool, codecs: Codecs,
    transport: TransportCall -> TransportReply) returns (call: TransportCall, result: Outcome)
    ensures (call, result) == RequestOf(base, url, params, data, headers, httpMethod, options, isJson, codecs, transport)
  {
    var formatted := FlattenHeaders(headers);
    var endpoint := base + url;
    var verb := Upper(httpMethod);
    if verb == "GET" {
      call := TransportCall(Endpoint(endpoint, params, codecs), Get, None, formatted, TransportOptions(options));
    } else if verb == "POST" {
      call := TransportCall(Endpoint(endpoint, params, codecs), Post, RequestBody(formatted, data, codecs),
                            formatted, TransportOptions(options));
    } else {
      call := TransportCall(Endpoint(endpoint, params, codecs), Custom(verb), RequestBody(formatted, data, codecs),
                            formatted, TransportOptions(options));
    }
    assert call == Dispatch(httpMethod, endpoint, params, data, formatted, options, codecs);
    var outcome := Execute(transport(call), formatted, options, codecs);
    result := outcome;
    if isJson && HasResponse(outcome) {
      result := outcome.(response := Some(JsonDecode(outcome.response.value, codecs)));
    }
    assert result == DecodeResponse(outcome, isJson, codecs);
  }

  /** The result of `request` as a whole: status and code follow the
      transport's reply, the request headers are the flattened ones in
      input order, the options are returned as given, and the response
      is JSON-decoded exactly when `is_json` is set and a response is
      present (a failed decode leaving it as it was). */
  lemma RequestSpec(
    base: string, url: string, params: PhpArray<Value>, data: Value, headers: PhpArray<string>,
    httpMethod: string, options: PhpArray<Value>, isJson: bool, codecs: Codecs,
    transport: TransportCall -> TransportReply)
    ensures var (call, result) := RequestOf(base, url, params, data, headers, httpMethod, options, isJson, codecs, transport);
      var reply := transport(call);
      && call.url == Endpoint(base + url, params, codecs)
      && (result.status <==> reply.errno == 0 && reply.httpCode == 200)
      && (reply.errno != 0 ==> result.code == Numeric(-100) && result.response.None?)
      && (reply.errno == 0 && reply.httpCode != 200 ==> result.code == Tagged(HttpTag(reply.httpCode)))
      && (reply.errno == 0 && reply.httpCode == 200 ==> result.code == Numeric(200))
      && result.requestHeaders == Flattened(headers)
      && result.options == options
      && (reply.errno == 0 ==> result.response.Some?)
      && (reply.errno == 0 && isJson ==> result.response == Some(JsonDecode(ResponseBody(reply, codecs), codecs)))
      && (!isJson ==> result.response == if reply.errno == 0 then Some(ResponseBody(reply, codecs)) else None)
  {
    var (call, result) := RequestOf(base, url, params, data, headers, httpMethod, options, isJson, codecs, transport);
    var reply := transport(call);
    var body := ResponseBody(reply, codecs);
    assert body.Text? || body.Boolean?;
  }
}
