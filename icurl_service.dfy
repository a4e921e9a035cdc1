/** `iCurlService`: a client object holding a base URL, default headers,
    default curl options and the `just_response` flag, whose verb
    methods delegate to `iCurl::request`. */
module Service {
  import opened PhpValues
  import opened RequestEncoding
  import opened ICurl

  /** What `request` returns: the `response` entry alone, or the whole
      result array. */
  datatype Reply = Body(value: Value) | Full(result: Outcome)

  /** The options `request` passes on: the per-call options, overwritten
      entry by entry by the service's own. */
  function MergedOptions(callOptions: PhpArray<Value>, serviceOptions: PhpArray<Value>): PhpArray<Value> {
    PutAll(callOptions, serviceOptions)
  }

  /** For every key the service options hold, the service value wins;
      the per-call value stays for every other key. */
  lemma ServiceOptionsWin(callOptions: PhpArray<Value>, serviceOptions: PhpArray<Value>, k: Key)
    ensures Lookup(serviceOptions, k).Some? ==>
      Lookup(MergedOptions(callOptions, serviceOptions), k) == Lookup(serviceOptions, k)
    ensures Lookup(serviceOptions, k).None? ==>
      Lookup(MergedOptions(callOptions, serviceOptions), k) == Lookup(callOptions, k)
  {
    LastForDistinct(serviceOptions, k);
  }

  /** One step of `request`'s loop over the service options. */
  lemma MergeOptionStep(callOptions: PhpArray<Value>, serviceOptions: PhpArray<Value>, i: nat)
    requires i < |serviceOptions|
    ensures PutAll(callOptions, serviceOptions[..i + 1]) ==
            Put(PutAll(callOptions, serviceOptions[..i]), serviceOptions[i].0, serviceOptions[i].1)
  {
    assert serviceOptions[..i + 1] == serviceOptions[..i] + [serviceOptions[i]];
    PutAllSnoc(callOptions, serviceOptions[..i], serviceOptions[i]);
  }

  /** The headers `request` passes on: `array_merge($this->headers, $headers)`. */
  function MergedHeaders(serviceHeaders: PhpArray<string>, callHeaders: PhpArray<string>): PhpArray<string> {
    ArrayMerge(serviceHeaders, callHeaders)
  }

  /** A per-call header with a string key wins over the service's; the
      integer-keyed headers of both are kept, the service's first, and
      renumbered from 0. */
  lemma HeaderMerge(serviceHeaders: PhpArray<string>, callHeaders: PhpArray<string>, name: string)
    ensures Lookup(MergedHeaders(serviceHeaders, callHeaders), StrKey(name)) ==
      if Lookup(callHeaders, StrKey(name)).Some? then Lookup(callHeaders, StrKey(name))
      else Lookup(serviceHeaders, StrKey(name))
    ensures var merged := IntEntries(MergedHeaders(serviceHeaders, callHeaders));
      && Values(merged) == Values(IntEntries(serviceHeaders)) + Values(IntEntries(callHeaders))
      && forall j :: 0 <= j < |merged| ==> merged[j].0 == IntKey(j)
  {
    MergeStringKeys(serviceHeaders, callHeaders, name);
    MergeIntEntries(serviceHeaders, callHeaders);
  }

  /** The last line of `request`: the `response` entry when
      `just_response` is set and the result has one that is not null,
      and otherwise the whole result. */
  function Select(justResponse: bool, result: Outcome): (r: Reply)
    ensures r.Body? <==> justResponse && HasResponse(result)
    ensures r.Body? ==> result.response == Some(r.value)
    ensures r.Full? ==> r.result == result
  {
    if justResponse && HasResponse(result) then Body(result.response.value) else Full(result)
  }

  /** What `iCurlService::request` sends and returns, given the service's
      fields. */
  function ServiceRequest(
    base: string, serviceHeaders: PhpArray<string>, serviceOptions: PhpArray<Value>, justResponse: bool,
    endpoint: string, params: PhpArray<Value>, data: Value, headers: PhpArray<string>,
    httpMethod: string, options: PhpArray<Value>, isJson: bool, codecs: Codecs,
    transport: TransportCall -> TransportReply): (TransportCall, Reply)
  {
    var (call, result) := RequestOf(base, endpoint, params, data, MergedHeaders(serviceHeaders, headers),
                                    httpMethod, MergedOptions(options, serviceOptions), isJson, codecs, transport);
    (call, Select(justResponse, result))
  }

  /** The call carries the merged headers, flattened, and the merged
      options without `CURl_I_TYPE`; the reply is the response alone
      exactly when `just_response` is set and the decoded response is
      present and not null. */
  lemma ServiceRequestSpec(
    base: string, serviceHeaders: PhpArray<string>, serviceOptions: PhpArray<Value>, justResponse: bool,
    endpoint: string, params: PhpArray<Value>, data: Value, headers: PhpArray<string>,
    httpMethod: string, options: PhpArray<Value>, isJson: bool, codecs: Codecs,
    transport: TransportCall -> TransportReply)
    ensures var (call, reply) := ServiceRequest(base, serviceHeaders, serviceOptions, justResponse,
                                               endpoint, params, data, headers, httpMethod, options, isJson,
                                               codecs, transport);
      var result := RequestOf(base, endpoint, params, data, MergedHeaders(serviceHeaders, headers),
                              httpMethod, MergedOptions(options, serviceOptions), isJson, codecs, transport).1;
      && call.url == Endpoint(base + endpoint, params, codecs)
      && call.headers == Flattened(MergedHeaders(serviceHeaders, headers))
      && call.options == TransportOptions(MergedOptions(options, serviceOptions))
      && (reply.Body? <==> justResponse && HasResponse(result))
      && (reply.Full? ==> reply.result == result)
  {
    var flat := Flattened(MergedHeaders(serviceHeaders, headers));
    DispatchSpec(httpMethod, base + endpoint, params, data, flat, MergedOptions(options, serviceOptions), codecs);
  }

  /** `iCurlService`. */
  class ICurlService {
    var base: string
    var headers: PhpArray<string>
    var options: PhpArray<Value>
    var justResponse: bool

    /** `__construct`: the fields as given, and `just_response` on. */
    constructor(base: string, headers: PhpArray<string>, options: PhpArray<Value>)
      ensures this.base == base && this.headers == headers && this.options == options
      ensures justResponse
    {
      this.base := base;
      this.headers := headers;
      this.options := options;
      justResponse := true;
    }

    /** `justResponse`: sets the flag and returns the same object. */
    method JustResponse(value: bool) returns (self: ICurlService)
      modifies this
      ensures self == this
      ensures justResponse == value
      ensures base == old(base) && headers == old(headers) && options == old(options)
    {
      justResponse := value;
      self := this;
    }

    /** `request`. It changes no field: the merging works on copies. */
    method Request(
      endpoint: string, params: PhpArray<Value>, data: Value, headers: PhpArray<string>,
      httpMethod: string, options: PhpArray<Value>, isJson: bool, codecs: Codecs,
      transport: TransportCall -> TransportReply) returns (call: TransportCall, reply: Reply)
      ensures (call, reply) == ServiceRequest(this.base, this.headers, this.options, justResponse,
                                              endpoint, params, data, headers, httpMethod, options, isJson,
                                              codecs, transport)
    {
      var serviceOptions := this.options;
      var merged := options;
      var i := 0;
      while i < |serviceOptions|
        invariant 0 <= i <= |serviceOptions|
        invariant merged == PutAll(options, serviceOptions[..i])
      {
        var (index, option) := serviceOptions[i];
        MergeOptionStep(options, serviceOptions, i);
        merged := PhpValues.Put(merged, index, option);
        i := i + 1;
      }
      assert serviceOptions[..|serviceOptions|] == serviceOptions;
      assert merged == MergedOptions(options, serviceOptions);
      var result;
      call, result := ICurl.Request(base, endpoint, params, data, MergedHeaders(this.headers, headers),
                                    httpMethod, merged, isJson, codecs, transport);
      reply := Select(justResponse, result);
    }

    /** `get`: no data, method GET, JSON decoding on. */
    method Get(
      endpoint: string, params: PhpArray<Value>, headers: PhpArray<string>, options: PhpArray<Value>,
      codecs: Codecs, transport: TransportCall -> TransportReply) returns (call: TransportCall, reply: Reply)
      ensures (call, reply) == ServiceRequest(base, this.headers, this.options, justResponse,
                                              endpoint, params, Null, headers, "GET", options, true,
                                              codecs, transport)
    {
      call, reply := Request(endpoint, params, Null, headers, "GET", options, true, codecs, transport);
    }

    /** `post`: no query parameters, method POST, JSON decoding on. */
    method Post(
      endpoint: string, data: Value, headers: PhpArray<string>, options: PhpArray<Value>,
      codecs: Codecs, transport: TransportCall -> TransportReply) returns (call: TransportCall, reply: Reply)
      ensures (call, reply) == ServiceRequest(base, this.headers, this.options, justResponse,
                                              endpoint, [], data, headers, "POST", options, true,
                                              codecs, transport)
    {
      call, reply := Request(endpoint, [], data, headers, "POST", options, true, codecs, transport);
    }

    /** `delete`: all arguments forwarded, method DELETE, JSON decoding on. */
    method Delete(
      endpoint: string, params: PhpArray<Value>, data: Value, headers: PhpArray<string>,
      options: PhpArray<Value>, codecs: Codecs, transport: TransportCall -> TransportReply)
      returns (call: TransportCall, reply: Reply)
      ensures (call, reply) == ServiceRequest(base, this.headers, this.options, justResponse,
                                              endpoint, params, data, headers, "DELETE", options, true,
                                              codecs, transport)
    {
      call, reply := Request(endpoint, params, data, headers, "DELETE", options, true, codecs, transport);
    }

    /** `put`: all arguments forwarded, method PUT, JSON decoding on. */
    method Put(
      endpoint: string, params: PhpArray<Value>, data: Value, headers: PhpArray<string>,
      options: PhpArray<Value>, codecs: Codecs, transport: TransportCall -> TransportReply)
      returns (call: TransportCall, reply: Reply)
      ensures (call, reply) == ServiceRequest(base, this.headers, this.options, justResponse,
                                              endpoint, params, data, headers, "PUT", options, true,
                                              codecs, transport)
    {
      call, reply := Request(endpoint, params, data, headers, "PUT", options, true, codecs, transport);
    }
  }
}
