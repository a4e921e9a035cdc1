/** How `iCurl` composes the request URL and encodes the request body:
    `endpoint`, the content-type lookup `get_content_type`, the tests
    `is_content_type`, `is_content_type_json`, `is_content_type_url`, and
    `convert_data`. The PHP library functions they call are parameters. */
module RequestEncoding {
  import opened PhpValues
  import opened PhpStrings

  /** The PHP library functions the client calls, left uninterpreted.
      `jsonEncode` yields `None` where `json_encode` returns `false`;
      `jsonDecode` yields `None` where `json_last_error()` reports an
      error afterwards; `zlibDecode` yields `None` where `zlib_decode`
      returns `false`. */
  datatype Codecs = Codecs(
    buildQuery: seq<(Key, Value)> -> string,
    jsonEncode: seq<(Key, Value)> -> Option<string>,
    jsonDecode: Value -> Option<Value>,
    zlibDecode: string -> Option<string>)

  /** `iCurl::endpoint`: the URL, followed by `?` and the encoded query
      when there are parameters. */
  function Endpoint(url: string, params: PhpArray<Value>, codecs: Codecs): (r: string)
    ensures |params| == 0 <==> r == url
    ensures |params| == 0 || (|r| > |url| && r[..|url|] == url && r[|url|] == '?')
    ensures |params| > 0 ==> r[|url| + 1..] == codecs.buildQuery(params)
  {
    if |params| > 0 then url + "?" + codecs.buildQuery(params) else url
  }

  /** With parameters, splitting the endpoint at its first `?` gives back
      the URL and the query, provided the URL itself has no `?`: the `?`
      is added exactly once, between the two. */
  lemma EndpointSplits(url: string, params: PhpArray<Value>, codecs: Codecs)
    requires |params| > 0 && !Contains(url, "?")
    ensures SplitOnce(Endpoint(url, params, codecs), "?") == (url, Some(codecs.buildQuery(params)))
  {
    SplitAtFirstChar(url, '?', codecs.buildQuery(params));
  }

  /** A header entry that `get_content_type` stops at: its lower-case form
      contains "content-type". */
  predicate MentionsContentType(header: string) {
    Contains(Lower(header), "content-type")
  }

  /** `trim(explode(':', $header)[1])`. For an entry without `:` the
      second piece is missing; PHP reads it as null (with a warning, not
      an exception) and `trim(null)` is "". */
  function ContentTypeValue(header: string): string {
    var pieces := Explode(header, ":");
    if |pieces| >= 2 then Trim(pieces[1]) else ""
  }

  /** The value is the trimmed text between the first and the second `:`
      of the entry (or up to its end), and "" when it has no `:`. */
  lemma ContentTypeValueSpec(header: string)
    ensures ContentTypeValue(header) ==
      match SplitOnce(header, ":").1
      case None => ""
      case Some(rest) => Trim(SplitOnce(rest, ":").0)
  {
    match IndexOf(header, ":")
    case None =>
    case Some(i) =>
      var rest := header[i + 1..];
      assert Explode(header, ":") == [header[..i]] + Explode(rest, ":");
      assert Explode(header, ":")[1] == Explode(rest, ":")[0];
  }

  /** For a `"Name: value"` entry whose name has no `:`, the content type
      read back is the trimmed value up to its own first `:`. */
  lemma ContentTypeOfEntry(name: string, value: string)
    requires !Contains(name, ":")
    ensures ContentTypeValue(name + ": " + value) == Trim(SplitOnce(value, ":").0)
  {
    var entry := name + ": " + value;
    var rest := " " + value;
    assert SplitOnce(entry, ":") == (name, Some(rest)) by {
      assert entry == name + [':'] + rest;
      SplitAtFirstChar(name, ':', rest);
    }
    var piece := SplitOnce(value, ":").0;
    assert SplitOnce(rest, ":").0 == " " + piece by {
      SplitOnceCons(' ', value, ':');
    }
    ContentTypeValueSpec(entry);
    TrimLeadingSpace(piece);
  }

  /** The value of the first entry that mentions "content-type", or
      `None` (PHP's `false`) when no entry does. */
  function FirstContentType(headers: seq<string>): (r: Option<string>)
    ensures r.None? <==> forall i :: 0 <= i < |headers| ==> !MentionsContentType(headers[i])
    ensures r.Some? ==>
      exists i :: 0 <= i < |headers| && MentionsContentType(headers[i]) && r.value == ContentTypeValue(headers[i])
                  && forall j :: 0 <= j < i ==> !MentionsContentType(headers[j])
  {
    if headers == [] then None
    else if MentionsContentType(headers[0]) then Some(ContentTypeValue(headers[0]))
    else
      var r := FirstContentType(headers[1..]);
      assert forall i :: 1 <= i < |headers| ==> headers[i] == headers[1..][i - 1];
      r
  }

  /** `iCurl::get_content_type`: scans the entries in order and returns
      at the first one that mentions "content-type". */
  method GetContentType(headers: seq<string>) returns (r: Option<string>)
    ensures r == FirstContentType(headers)
  {
    var i := 0;
    while i < |headers|
      invariant 0 <= i <= |headers|
      invariant FirstContentType(headers[i..]) == FirstContentType(headers)
    {
      var header := headers[i];
      if Contains(Lower(header), "content-type") {
        return Some(ContentTypeValue(header));
      }
      assert headers[i..][1..] == headers[i + 1..];
      i := i + 1;
    }
    return None;
  }

  /** The content type `is_content_type` tests: the explicit argument if
      it is truthy, else the looked-up one if that is truthy, else "". */
  function EffectiveContentType(headers: seq<string>, explicit: Option<string>): string {
    if explicit.Some? && TruthyString(explicit.value) then explicit.value
    else
      match FirstContentType(headers)
      case Some(found) => if TruthyString(found) then found else ""
      case None => ""
  }

  /** `iCurl::is_content_type`: `wanted` (PHP's `$type`) occurs in the
      effective content type, or equals it; `explicit` is PHP's
      `$content_type`. */
  function IsContentType(headers: seq<string>, wanted: string, explicit: Option<string>): (r: bool)
    ensures r <==> Contains(EffectiveContentType(headers, explicit), wanted)
  {
    var effective := EffectiveContentType(headers, explicit);
    if Contains(effective, wanted) then true
    else
      assert effective != wanted by {
        assert effective[..|effective|] == effective;
      }
      effective == wanted
  }

  /** Passing the looked-up content type as the explicit argument, as
      `convert_data` does, gives the same answer as passing none. */
  lemma LookedUpTypeChangesNothing(headers: seq<string>, wanted: string)
    ensures IsContentType(headers, wanted, FirstContentType(headers)) ==
            IsContentType(headers, wanted, None)
    ensures EffectiveContentType(headers, FirstContentType(headers)) == EffectiveContentType(headers, None)
  {
  }

  const JsonType: string := "json"
  const FormType: string := "x-www-form-urlencoded"

  /** `iCurl::is_content_type_json`. */
  function IsContentTypeJson(headers: seq<string>, explicit: Option<string>): (r: bool)
    ensures r <==> Contains(EffectiveContentType(headers, explicit), "json")
  {
    IsContentType(headers, JsonType, explicit)
  }

  /** `iCurl::is_content_type_url`. */
  function IsContentTypeUrl(headers: seq<string>, explicit: Option<string>): (r: bool)
    ensures r <==> Contains(EffectiveContentType(headers, explicit), "x-www-form-urlencoded")
  {
    IsContentType(headers, FormType, explicit)
  }

  /** `json_encode((array)$data)`, with `false` for a failed encoding. */
  function JsonBody(data: Value, codecs: Codecs): Value
    requires IsStructured(data)
  {
    match codecs.jsonEncode(AsEntries(data))
    case Some(text) => Text(text)
    case None => Boolean(false)
  }

  /** `http_build_query((array)$data)`. */
  function FormBody(data: Value, codecs: Codecs): Value
    requires IsStructured(data)
  {
    Text(codecs.buildQuery(AsEntries(data)))
  }

  /** `iCurl::convert_data`. Arrays and objects are JSON-encoded when the
      looked-up content type mentions "json", else form-encoded when it
      mentions "x-www-form-urlencoded"; JSON takes precedence. Scalars,
      and anything under another content type, pass through unchanged. */
  function ConvertData(headers: seq<string>, data: Value, codecs: Codecs): (r: Value)
    ensures !IsStructured(data) ==> r == data
    ensures var found := EffectiveContentType(headers, None);
      && (IsStructured(data) && Contains(found, "json") ==> r == JsonBody(data, codecs))
      && (IsStructured(data) && !Contains(found, "json") && Contains(found, "x-www-form-urlencoded") ==>
            r == FormBody(data, codecs))
      && (!Contains(found, "json") && !Contains(found, "x-www-form-urlencoded") ==> r == data)
  {
    var contentType := FirstContentType(headers);
    LookedUpTypeChangesNothing(headers, JsonType);
    LookedUpTypeChangesNothing(headers, FormType);
    if IsContentTypeJson(headers, contentType) then
      if IsStructured(data) then JsonBody(data, codecs) else data
    else if IsContentTypeUrl(headers, contentType) then
      if IsStructured(data) then FormBody(data, codecs) else data
    else data
  }
}
