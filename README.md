# iCurl in Dafny

A model of the deterministic core of `iamirnet/curl`, a PHP wrapper
around the curl extension, with proofs of what that core promises.

- **`iCurl`** (src/iCurl.php) does the following:
  - builds the request URL (`endpoint`);
  - flattens the request headers into `"name: value"` lines;
  - finds the request's content type (`get_content_type`, `is_content_type`, `is_content_type_json`, `is_content_type_url`);
  - encodes the request body from that content type (`convert_data`);
  - routes the call by HTTP method (`request` with `get`, `post`, `delete`, `put` and `other`);
  - classifies the transport's reply as a result array (`execute`);
  - parses the raw response header block (`headers2Array`);
  - optionally JSON-decodes the response (`json_decode`);
  - turns a proxy URL into a curl proxy descriptor (`proxy`).
- **`iCurlService`** (src/iCurlService.php) is a small stateful client. It holds:
  - a base URL, default headers and default options;
  - a `just_response` flag, which decides whether callers get the response alone or the whole result.

The Dafny modules follow that structure:

| file | module | contents |
|---|---|---|
| php_values.dfy | `PhpValues` | PHP values, and PHP's ordered arrays as sequences of entries with distinct keys. It covers assignment `$a[$k] = $v`, `unset`, a sequence of assignments, and `array_merge`. |
| php_strings.dfy | `PhpStrings` | `strpos`, `explode` (also with a limit of 2), ASCII `strtolower`/`strtoupper`, `trim`, and the decimal form of integers. |
| response_headers.dfy | `ResponseHeaders` | `headers2Array`, as a method with a loop, proved against a function of the header block. |
| request_encoding.dfy | `RequestEncoding` | `endpoint`, `get_content_type` (a method with an early-returning loop, proved against a first-match function), `is_content_type*`, `convert_data`. |
| proxy.dfy | `Proxy` | `proxy`, taking the components `parse_url` yields. |
| icurl_request.dfy | `ICurl` | Header flattening (a method with a loop), verb dispatch, `execute`'s classification and gzip trigger, `json_decode`, and `request` (a method proved against a function). |
| icurl_service.dfy | `Service` | The class `ICurlService`, with its fields, constructor, `justResponse` setter, `request` (with the option-merging loop) and the verb methods. |

Several things are inputs rather than modelled behaviour:

- **Library calls.** `http_build_query`, `json_encode`, `json_decode` and `zlib_decode` are uninterpreted function parameters, bundled in `Codecs`.
- **The transport.** `curl_init` through `curl_close` is a parameter `transport` that maps the call the client makes (`TransportCall`: URL, verb, body, header lines, options) to what curl reports back (`TransportReply`: errno, HTTP code, raw response, header size, info, error text).
- **`parse_url`.** Its result is the input of `proxy`.

The model follows the code in these places, some of which are easy to misread:

- **`request` decodes every response, not only 200s.** It JSON-decodes the `response` entry whenever `$is_json` is set and the entry is set. That includes the body of a non-200 reply, not only a successful one (src/iCurl.php:361-362).
- **The content-type search looks at whole header lines.** `get_content_type` searches the whole flattened `"name: value"` line, name and value alike, for "content-type", case-insensitively. It takes the first such line. The value it reads is the text between the first and the second `:`, trimmed, so a content type with a `:` in it is cut short (src/iCurl.php:315-318).
- **A body needs truthy data.** A body is attached only when the data is truthy in PHP's sense, so `"0"`, `0`, `[]`, `false` and `null` send none (src/iCurl.php:113, 176).
- **Response header lines split strictly at `": "`.** A line without `": "` is stored under the whole line, with PHP `null` as its value. Empty lines and lines reading `"0"` are skipped (src/iCurl.php:24-26).
- **`endpoint` always appends its own `?`.** A URL that already has a query, such as `http://x/y?k=1`, comes out as `http://x/y?k=1?` followed by the encoded parameters (src/iCurl.php:41). `Endpoint` reproduces this, and `EndpointSplits` speaks only of URLs without `?`.
- **`iCurlService::request` can return the whole result after a 200.** It returns the whole result even after success when the decoded response is JSON `null`, because `isset` is false for `null` (src/iCurlService.php:67).

## Model

| member | source | states |
|---|---|---|
| PhpValues.Put | src/iCurl.php:26 | `$a[$k] = $v` stores `v` under `k` and leaves every other key's value alone. An existing key's entry is replaced where it stands, and every other entry stays as it was. A new key is appended at the end. |
| PhpValues.Remove | src/iCurl.php:55 | `unset` removes the key and leaves every other key's value alone. |
| PhpValues.PutAll | src/iCurlService.php:64-65 | After a sequence of assignments, each key holds the value of its last assignment, and keys never assigned keep their old value. |
| PhpValues.ArrayMerge | src/iCurlService.php:66 | `array_merge` numbers its integer keys 0, 1, 2, ... in order. |
| PhpValues.MergeStringKeys | src/iCurlService.php:66 | In `array_merge(a, b)`, a string key takes its value from `b` when `b` has the key, and from `a` otherwise. |
| PhpValues.MergeIntEntries | src/iCurlService.php:66 | In `array_merge(a, b)`, the integer-keyed values are those of `a` followed by those of `b`, renumbered from 0. |
| PhpStrings.IndexOfSpec | src/iCurl.php:316 | `strpos` returns the first occurrence, and `false` exactly when there is none. |
| PhpStrings.ExplodeJoin | src/iCurl.php:21 | Joining the pieces of `explode` with the separator gives back the string. |
| PhpStrings.ExplodePieces | src/iCurl.php:21 | No piece of `explode` contains the separator. |
| PhpStrings.SplitOnceSpec | src/iCurl.php:25 | `explode(sep, s, 2)` has a first piece free of `sep`. Without `sep` the first piece is the whole string. Otherwise the two pieces glue back to `s` around `sep`, so later separators stay in the second piece. |
| PhpStrings.SplitOnceJoined | src/iCurl.php:25 | Splitting `a . ": " . b` at its first ": " gives back `a` and `b` when `a` holds no ": ". |
| PhpStrings.Lower | src/iCurl.php:316 | `strtolower` keeps the length and lower-cases each character, ASCII letters only. |
| PhpStrings.Upper | src/iCurl.php:344 | `strtoupper` keeps the length and upper-cases each character, ASCII letters only. |
| PhpStrings.TrimSpec | src/iCurl.php:318 | `trim` removes exactly the run of whitespace and NUL characters at each end. |
| PhpStrings.NatToDecimal | src/iCurl.php:377 | The interpolated form of a port or status code is non-empty, all digits and has no leading zero. |
| PhpStrings.DecimalRoundTrip | src/iCurl.php:377 | Reading the decimal form back gives the number. |
| ResponseHeaders.Headers2Array | src/iCurl.php:18-30 | The loop returns the array obtained by storing the first line under `http_status` and then assigning each later non-empty line, split at its first ": ", in order. |
| ResponseHeaders.StatusLineKept | src/iCurl.php:21-22 | The first CRLF-separated line, even an empty one, is stored under `http_status` and stays there unless a later line is named `http_status`. It is the text before the first CRLF. |
| ResponseHeaders.HeaderLookup | src/iCurl.php:23-28 | For a name other than `http_status`, the value is the text after the first ": " of the last non-empty later line with that name. A repeated name keeps the last value. The name is absent when no line carries it. |
| ResponseHeaders.LastLineWins | src/iCurl.php:23-28 | Over the loop's assignments, the last line with a given name decides that name's value. |
| ResponseHeaders.LastNamedIndexSpec | src/iCurl.php:24-26 | The line index used above is the last non-empty line whose name is the given one, and there is none exactly when no line has that name. |
| RequestEncoding.Endpoint | src/iCurl.php:39-42 | The URL is returned unchanged exactly when there are no parameters. Otherwise the result is the URL, then `?`, then the encoded query (`http_build_query` of the parameters), whether or not the URL already holds a `?`. |
| RequestEncoding.EndpointSplits | src/iCurl.php:41 | With parameters, and with no `?` in the URL, the first `?` of the endpoint separates the URL from the encoded query, so `?` is added exactly once. |
| RequestEncoding.ContentTypeValueSpec | src/iCurl.php:318 | The value read from a header line is its trimmed text between the first and second `:`, and "" when the line has no `:`. |
| RequestEncoding.ContentTypeOfEntry | src/iCurl.php:318 | For a `"Name: value"` line whose name has no `:`, the content type read is the value up to its own first `:`, trimmed. |
| RequestEncoding.FirstContentType | src/iCurl.php:313-323 | The result is `false` exactly when no line mentions "content-type" in any case. Otherwise it is the value of the first line that does, and later lines are ignored. |
| RequestEncoding.GetContentType | src/iCurl.php:313-323 | The scanning loop with its early return computes exactly that first match. |
| RequestEncoding.IsContentType | src/iCurl.php:301-305 | True exactly when the type occurs in the effective content type. That type is the explicit argument if truthy, else the looked-up one if truthy, else "". |
| RequestEncoding.LookedUpTypeChangesNothing | src/iCurl.php:303 | Passing the looked-up type as the explicit argument, as `convert_data` does, answers as passing none. |
| RequestEncoding.IsContentTypeJson | src/iCurl.php:276-279 | True exactly when "json" occurs in the effective content type. |
| RequestEncoding.IsContentTypeUrl | src/iCurl.php:288-291 | True exactly when "x-www-form-urlencoded" occurs in the effective content type. |
| RequestEncoding.ConvertData | src/iCurl.php:259-267 | Scalars pass unchanged. Arrays and objects are JSON-encoded under a "json" content type, else form-encoded under "x-www-form-urlencoded", with JSON checked first. Under any other content type, data passes unchanged. |
| Proxy.ProxyCode | src/iCurl.php:381-388 | HTTP carries `CURLPROXY_HTTP` (0), SOCKS4 carries `CURLPROXY_SOCKS4` (4) and SOCKS5 carries `CURLPROXY_SOCKS5` (5), each exactly, so the three codes differ. |
| Proxy.SchemeType | src/iCurl.php:378-392 | `http`/`https` select HTTP, `socks`/`socks5` select SOCKS5, `socks4` selects SOCKS4, and nothing else selects a type. |
| Proxy.ProxyOf | src/iCurl.php:367-394 | The result is `false` exactly when `parse_url` fails, the scheme, host or port is missing, or the lower-cased scheme is unknown. Otherwise it is the pair of the scheme's curl proxy-type constant and `host:port`. |
| Proxy.SchemeCaseInsensitive | src/iCurl.php:373 | The scheme is compared without regard to ASCII case. |
| Proxy.AddressRoundTrip | src/iCurl.php:377 | When the host has no `:`, the host and the port can be read back from the address. |
| Proxy.Examples | src/iCurl.php:367-394 | `HTTPS://proxy.local:8080` gives `[0, "proxy.local:8080"]` and `socks5://proxy.local:1080` gives `[5, "proxy.local:1080"]`. An `ftp` scheme, a missing port and a failed parse give `false`. |
| ICurl.FlattenHeaders | src/iCurl.php:340-342 | The loop builds `"key: value"` for every header, in input order. |
| ICurl.FlattenedSplitsBack | src/iCurl.php:342 | A flattened line splits back at its first ": " into key and value when the key holds no ": ". |
| ICurl.FlattenedContentType | src/iCurl.php:342 | The content type read from a flattened line is its value up to the first `:`, trimmed. |
| ICurl.TransportOptions | src/iCurl.php:55 | The options handed to curl lack `CURl_I_TYPE` and keep every other option. |
| ICurl.RequestBody | src/iCurl.php:176 | A body is set exactly when the data is truthy. |
| ICurl.DispatchSpec | src/iCurl.php:344-360 | The method is matched after upper-casing. GET sets no body, POST uses `CURLOPT_POST`, and every other method, upper-cased, is a custom request. Every call goes to the composed endpoint with the flattened headers. A body is sent exactly when the method is not GET and the data is truthy, and that body is `convert_data` of the data. |
| ICurl.SplitResponse | src/iCurl.php:79-80 | The header block and the body together make up the raw response. |
| ICurl.ResponseBody | src/iCurl.php:82-83 | The body is inflated exactly when the parsed headers hold exactly `content-encoding` => `gzip`. A failed inflation gives `false`. |
| ICurl.GzipTrigger | src/iCurl.php:82 | That happens exactly when the last response line named `content-encoding` reads exactly `content-encoding: gzip`, with name and value compared case-sensitively. |
| ICurl.NamedLineValue | src/iCurl.php:25 | A line with a given name carries a given value exactly when it is `name: value`. |
| ICurl.HttpTagRoundTrip | src/iCurl.php:93 | The tag of an HTTP code is `h_` followed by digits that read back as the code. |
| ICurl.HttpTagInjective | src/iCurl.php:93 | Distinct HTTP codes get distinct tags. |
| ICurl.Execute | src/iCurl.php:90-96 | `status` is true exactly when there was no transport error and the code is 200. A transport error, checked first, gives code -100 and no response. Another HTTP code gives the `h_` tag and the body. A 200 gives code 200 and the success message. The parsed headers, info, request headers and options are returned as given. |
| ICurl.StatusMatchesCode | src/iCurl.php:90-96 | `status` is true exactly when `code` is the integer 200, and the response is absent exactly after a transport error. |
| ICurl.JsonDecode | src/iCurl.php:232-236 | A failed decode returns the input unchanged; a successful one returns the decoded value. |
| ICurl.DecodeResponse | src/iCurl.php:361-362 | The response is decoded exactly when `is_json` is set and the response is set, and nothing else changes. |
| ICurl.Request | src/iCurl.php:338-364 | The method computes the call and the result that `request` specifies. |
| ICurl.RequestSpec | src/iCurl.php:338-364 | Status and code follow the transport's reply. The request headers are the flattened ones in input order, and the options come back as given. The response is absent only after a transport error. It is JSON-decoded when `is_json` is set and left alone when it is not. |
| Service.ServiceOptionsWin | src/iCurlService.php:64-65 | The service's own value wins for every key the service options hold, and the per-call value stays for every other key. |
| Service.HeaderMerge | src/iCurlService.php:66 | A per-call header with a string key wins over the service's. The integer-keyed headers of both are kept, the service's first, renumbered from 0. |
| Service.Select | src/iCurlService.php:67 | The response alone is returned exactly when `just_response` is set and the response is present and not null. Otherwise the whole result is returned. |
| Service.ServiceRequestSpec | src/iCurlService.php:62-68 | The call carries the merged headers, flattened, and the merged options without `CURl_I_TYPE`, and goes to base plus endpoint. The reply is selected as above. |
| Service.ICurlService.constructor | src/iCurlService.php:33-38 | Base, headers and options are stored as given, and `just_response` starts true. |
| Service.ICurlService.JustResponse | src/iCurlService.php:45-49 | The flag takes the argument, the same object is returned, and no other field changes. |
| Service.ICurlService.Request | src/iCurlService.php:62-68 | The options loop and the delegation compute the call and reply `ServiceRequest` specifies from the object's fields. The method changes no field. |
| Service.ICurlService.Get | src/iCurlService.php:78-81 | `get` passes null data, method GET and JSON decoding. |
| Service.ICurlService.Post | src/iCurlService.php:91-94 | `post` passes no query parameters, method POST and JSON decoding. |
| Service.ICurlService.Delete | src/iCurlService.php:105-108 | `delete` forwards all its arguments with method DELETE. |
| Service.ICurlService.Put | src/iCurlService.php:119-122 | `put` forwards all its arguments with method PUT. |

## Left out

- **Byte strings.** PHP strings are byte strings, while a Dafny `string` is a sequence of Unicode scalar values. The model reads every `string` as holding one byte per `char` (values 0–255), so `headerSize`, `substr`, `strpos`, `explode`, `strtolower` and `trim` all count and compare bytes. A `string` holding a character above 255 stands for no PHP string. Such a string would make `HeaderBlock` and `RawBody` count characters where PHP counts bytes. Multi-byte text and binary gzip bodies are therefore only covered through their byte-per-`char` form.
- **curl transport work** (src/iCurl.php:52-64, 74-78, 95, 109-178). This covers curl handle setup and `curl_exec`, `curl_getinfo`, `curl_error` and `curl_close`. It is foreign I/O, so the whole exchange is the `transport` parameter. Curl's own behaviour is not modelled:
  - the `CURLOPT_HEADER` and `CURLOPT_RETURNTRANSFER` settings;
  - TLS verification being switched off (src/iCurl.php:59-60);
  - `curl_exec` returning `false`. The raw response is always a string, `false` reading as "".
- **The transport as a function.** It answers the same call the same way every time. A real network does not.
- **`download`** (src/iCurl.php:193-212). It works with files: opening, streaming into and deleting them.
- **`exists`** (src/iCurl.php:220-224). It probes the network through `get_headers`.
- **`is_json`** (src/iCurl.php:244-250). Nothing in the modelled core calls it.
- **src/helpers.php.** It only wraps the class's functions in `function_exists` guards. `i_curl_random_ua` calls `iCurl::randomUA`, which does not exist.
- **The internals of `http_build_query`, `json_encode`, `json_decode`, `zlib_decode` and `parse_url`.** They are uninterpreted parameters, so no round trip of body encoding through JSON decoding is stated. Two details of these calls are not modelled:
  - `endpoint` passes `''` and `'&'` explicitly while `convert_data` relies on the default separator; both use the same `buildQuery`;
  - `json_decode`'s coercion of a non-string argument is folded into the uninterpreted `jsonDecode`.
- **`get_content_type`'s `catch` branch** (src/iCurl.php:319-320). PHP reports the missing second piece of a line without `:` as a warning, not a `Throwable`, so the model gives "" as `trim(null)` does. An error handler that turns warnings into exceptions would make the function return the whole line instead.
- RequestEncoding.IsContentType: uses strict string equality for `$content_type == $type`. PHP's loose comparison differs from it only when both strings are numeric. The library passes only `json` and `x-www-form-urlencoded`.
- **Numeric-string keys.** PHP stores the key `"123"` as the integer 123, which changes what `array_merge` renumbers. Keys are taken as given.
- **Non-string header values.** Header values are strings. PHP would also interpolate integers and other scalars.
- **Floats, resources and objects with behaviour in `Value`.** Data and options are null, booleans, integers, strings, arrays and plain property lists.
- **Key order in result arrays.** The result of `execute` is a record, so the order of its keys in the PHP array is not kept.
- **PHP default arguments.** The model passes every argument explicitly.
