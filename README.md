# http-model in Dafny

A Dafny model of the core of attribyte's `http-model`, a Java library that puts one request and
response model in front of several HTTP client libraries. The model covers:

- the immutable values: headers, parameters, cookies, timing, statistics and request options;
- `Request`: its header and parameter lookups, path splitting, query-string parsing and bounded
  body reading;
- `Response`, `StreamedResponse` and `ResponseBuilder`;
- the request builders (HEAD, OPTIONS, form POST, POST, PUT, PATCH);
- HTTP Basic authentication (`AuthScheme`, `BasicAuthScheme`), with Base64 as RFC 4648 section 4
  defines it;
- the robots.txt parser and its allow/disallow decision;
- the glue of each client binding:
  - Apache Commons HttpClient 3: request preparation and response conversion;
  - the JDK `java.net.http` client: request building, form encoding and response conversion;
  - Jetty: `StatsListener`, `BufferingResponseListener`, `ListenableFutureResponseListener`,
    `TimingListener`, `TestResponseListener` and `ListenerChain`;
  - ning AsyncHttpClient: `CompletionHandler` and its two subclasses.

Modelling conventions:

- Java `null` is `Option.None`.
- A thrown exception is a `Throwable` value. It is returned through `Result` or as a `thrown`
  out-parameter.
- `int` arithmetic that can wrap is written with `JavaInt.Int32`.
- Strings are `seq<char>`. A byte is an integer from 0 to 255 (`JavaText.byte`).
- Objects whose fields the Java code updates in place are classes with `modifies` frames:
  - the builders;
  - `Response` (its headers and attributes);
  - the Jetty listeners and their content buffer;
  - the futures and the Jetty response's abort flag.
- Jetty inheritance is replaced by composition:
  - `BufferingResponseListener` holds a `StatsListener` and a `ContentBuffer`;
  - `TimingListener` holds the `BufferingResponseListener` it extends.
- The order in which a Java `Map` is iterated is a parameter: a sequence of the map's keys.

The Jetty listeners, `ListenerChain`, the ning handlers and the JDK client follow a newer
revision of the library than some of the value classes:

- the method enum there has seven members (PATCH and OPTIONS included);
- `ResponseBuilder` has `setStats`;
- `Response` carries attributes, stats and timing;
- `Stats` passes seven durations to `Timing`.

The model follows that newer revision throughout. `HttpValues.NewTiming` is the six-argument
`Timing` constructor of `Timing.java`: it leaves the time to the last response header unset.

Where the code and its documentation disagree, the model follows the code. The places where
the code is evidently not what its authors meant are listed under "## Findings", each with
both the behaviour as written and the corrected behaviour; the rows of "## Model" say which
member is which. Several members take a flag `asWritten` that selects either behaviour:
`Commons3Binding.BuildResponse` (the grouping of getMap), `Requests.ParseParameters` and
`Requests.AddToken` (the parameter name of a token), `RequestBuilders.RequestBuilder.WithQuery`
(the parse of the HEAD and OPTIONS builders' query string) and `RequestBuilders.RequestBuilder.Create`
(the method the PUT builder creates). With the flag set they are the code as written. The
builders' `addHeaders(Map)` and `TimingListener.onHeader` stay as written; their corrected
versions are `NamedValues.CreateMapLowerCased` and `JettyListeners.TimingListener.OnHeaderOnce`.

## Model

| member | source | states |
|---|---|---|
| HttpValues.RequestCookie | src/main/java/org/attribyte/api/http/Cookie.java:31-37 | a request cookie carries only its name and value: no domain or path, max age -1, neither secure nor HTTP-only |
| HttpValues.NewTiming | src/main/java/org/attribyte/api/http/Timing.java:33-42 | each of the six durations is stored unchanged and no last-header time exists |
| HttpValues.AtomicCounter.AddAndGet | src/main/java/org/attribyte/api/http/Stats.java:98-103 | the counter grows by the delta and the new total is returned |
| HttpValues.NewStats | src/main/java/org/attribyte/api/http/Stats.java:26-41 | the seven durations reach the Timing part in order; every counter is stored as passed, the two live counters by reference |
| HttpValues.DefaultRequestOptions | src/main/java/org/attribyte/api/http/RequestOptions.java:26-43 | the defaults are: follow redirects, at most 1 MiB of response body, a 5-second timeout |
| NamedValues.FromValue | src/main/java/org/attribyte/api/http/ImmutableNamedValues.java:49-56 | a single-value header or parameter keeps its name; a null or empty value becomes the one value "" |
| NamedValues.CopiedValuesShape | src/main/java/org/attribyte/api/http/ImmutableNamedValues.java:149-159 | copied values are never empty: null or empty input gives [""]; otherwise same length, with each null replaced by "" |
| NamedValues.CopyValues | src/main/java/org/attribyte/api/http/ImmutableNamedValues.java:149-159 | the loop produces exactly the copied values above |
| NamedValues.FromValues | src/main/java/org/attribyte/api/http/ImmutableNamedValues.java:67-70 | the multi-value constructor keeps the name and stores the copied values |
| NamedValues.GetValue | src/main/java/org/attribyte/api/http/ImmutableNamedValues.java:83-85 | getValue returns the first stored value, which always exists |
| NamedValues.FirstValue | src/main/java/org/attribyte/api/http/ImmutableNamedValues.java:83-85 | the first value is the one the constructor was given first ("" for null or none), and addValue keeps it |
| NamedValues.GetValues | src/main/java/org/attribyte/api/http/ImmutableNamedValues.java:91-93 | getValues returns a fresh array equal to the stored values, so callers cannot alter the object |
| NamedValues.AddValue | src/main/java/org/attribyte/api/http/Header.java:52-57 | adding a value keeps the name and appends the value after all earlier ones |
| NamedValues.AddedHeader | src/main/java/org/attribyte/api/http/ResponseBuilder.java:120-129 | adding under a name touches only the lower-cased key: a new key gets a one-value header, an existing key gets the value appended |
| NamedValues.PutByNameKeys | src/main/java/org/attribyte/api/http/ResponseBuilder.java:136-143 | after putting a header list, a key is present iff it was present before or some header has that exact name |
| NamedValues.PutByNameUntouched | src/main/java/org/attribyte/api/http/ResponseBuilder.java:136-143 | a key that no listed header names keeps its old header |
| NamedValues.PutByNameLastWins | src/main/java/org/attribyte/api/http/ResponseBuilder.java:136-143 | when several listed headers share a name, the last one is kept |
| NamedValues.ToString | src/main/java/org/attribyte/api/http/ImmutableNamedValues.java:96-104 | the text is the name, a colon, and the values joined by commas |
| NamedValues.CompareZeroIffSameLowerCase | src/main/java/org/attribyte/api/http/ImmutableNamedValues.java:34-42 | the name comparator returns 0 exactly when the names agree after lower-casing |
| NamedValues.CompareAntisymmetric | src/main/java/org/attribyte/api/http/ImmutableNamedValues.java:34-42 | swapping the arguments of the name comparator negates its result |
| NamedValues.ConvertedValues | src/main/java/org/attribyte/api/http/ImmutableNamedValues.java:120-138 | how each map value is converted: a scalar becomes a one-value entry; an empty collection or array gives [""]; an existing header or parameter is kept as it is |
| NamedValues.ConvertedOverAll | src/main/java/org/attribyte/api/http/ImmutableNamedValues.java:115-141 | converting every key over an output map gives that map overridden by the converted input, whatever order the keys are visited in |
| NamedValues.NoNullElement | src/main/java/org/attribyte/api/http/ImmutableNamedValues.java:126-132 | the scan answers true exactly when the value holds no null element, so o.toString() cannot throw |
| NamedValues.CopyMap | src/main/java/org/attribyte/api/http/ImmutableNamedValues.java:115-141 | a null input leaves the output as it was; an input containing a null element throws NullPointerException; otherwise the output is overridden by the converted input |
| NamedValues.CreateMap | src/main/java/org/attribyte/api/http/Header.java:81-90 | Header.createMap, and Parameter.createMap (Parameter.java:42-51), which converts alike: a null input gives the empty map; a null element throws; otherwise the result is the converted map |
| NamedValues.CreateMapLowerCased | src/main/java/org/attribyte/api/http/Header.java:70-90 | createMap as its documentation promises: every input key present in lower case, holding the conversion of one input key equal to it ignoring case; null gives the empty map and a null element throws |
| NamedValues.LowerKeyedLookup | src/main/java/org/attribyte/api/http/Header.java:70-77 | in a lower-keyed map, a lookup under the lower-cased name succeeds exactly when the input had a key equal to the name ignoring case, and finds that key's conversion |
| NamedValues.FilteredKeepsNonEmpty | src/main/java/org/attribyte/api/http/NamedValues.java:32-43 | a list with no empty string passes the filter unchanged |
| NamedValues.FilterIdempotent | src/main/java/org/attribyte/api/http/NamedValues.java:32-43 | filtering twice gives the same list as filtering once |
| NamedValues.CopyArrayValues | src/main/java/org/attribyte/api/http/NamedValues.java:32-43 | a null array gives the empty list; otherwise the null and empty strings are dropped and the order is kept |
| NamedValues.CopyCollectionValues | src/main/java/org/attribyte/api/http/NamedValues.java:52-64 | the same for a collection: null gives the empty list, otherwise only the non-empty values remain, in order |
| NamedValues.ListToString | src/main/java/org/attribyte/api/http/NamedValues.java:74-76 | the text always begins with the name and "="; a null list gives just that |
| NamedValues.ListToStringSplits | src/main/java/org/attribyte/api/http/NamedValues.java:66-76 | after name and "=" come the values joined by ',': a null or empty list leaves nothing, and when no value holds ',' splitting at ',' gives one piece per value in order, "[null]" for null |
| HeaderFields.AddedFieldsKeys | src/main/java/org/attribyte/api/http/impl/jetty/BufferingResponseListener.java:85-87 | adding header fields one at a time creates exactly the lower-cased names of the fields as new keys |
| HeaderFields.AddedFieldsValues | src/main/java/org/attribyte/api/http/impl/jetty/BufferingResponseListener.java:85-87 | under each key, the earlier values are followed by the values of every field with that lower-cased name, in field order |
| HeaderFields.AddFields | src/main/java/org/attribyte/api/http/impl/jetty/BufferingResponseListener.java:85-87 | the builder loop adds the headers that way and changes nothing else in the builder |
| HeaderFields.AddedFieldsAppend | src/main/java/org/attribyte/api/http/impl/jetty/BufferingResponseListener.java:85-87 | adding a + b equals adding a and then b |
| HeaderFields.EntriesHeaderValues | src/main/java/org/attribyte/api/http/impl/jdk/JdkClient.java:234-238 | copying a name-to-values header map keeps, under each lower-cased name, every value of every entry with that name, in order |
| HeaderFields.AddEntries | src/main/java/org/attribyte/api/http/impl/jdk/JdkClient.java:234-238 | the nested loop adds every value of every entry and changes nothing else in the builder |
| HeaderFields.HeaderPairsComplete | src/main/java/org/attribyte/api/http/impl/jdk/JdkClient.java:214-218 | flattening headers to name/value pairs keeps every value of every header |
| HeaderFields.HeaderPairsSound | src/main/java/org/attribyte/api/http/impl/jdk/JdkClient.java:214-218 | every flattened pair is the name of some header together with one of its values |
| HeaderFields.AppendPairs | src/main/java/org/attribyte/api/http/impl/jdk/JdkClient.java:214-218 | the loop appends all header pairs, in order, after the pairs already added |
| Requests.ValuesInOrder | src/main/java/org/attribyte/api/http/Request.java:305-315 | the collection view lists the map's value for each key, in the map's iteration order |
| Requests.NewRequest | src/main/java/org/attribyte/api/http/Request.java:104-131 | the request keeps its method, URI and body; a null header, parameter or attribute map becomes an empty one |
| Requests.MethodFromString | src/main/java/org/attribyte/api/http/Request.java:82-92 | the string-to-method lookup never yields PATCH or OPTIONS |
| Requests.MethodFromStringFacts | src/main/java/org/attribyte/api/http/Request.java:82-92 | the lookup ignores case ("get" gives GET, "Post" gives POST) and knows neither "PATCH" nor "options" |
| Requests.GetHeader | src/main/java/org/attribyte/api/http/Request.java:265-269 | the exact name is tried first, then the lower-cased one; the result is null iff neither is a key |
| Requests.GetHeaderValue | src/main/java/org/attribyte/api/http/Request.java:229-234 | the value is the first value of the header found that way, and null iff no header is found |
| Requests.GetHeaderValues | src/main/java/org/attribyte/api/http/Request.java:241-246 | all the values of the header found that way, never an empty list; null iff no header is found |
| Requests.GetParameterValue | src/main/java/org/attribyte/api/http/Request.java:276-279 | the first value of the parameter stored under exactly that name, or null |
| Requests.GetParameterValues | src/main/java/org/attribyte/api/http/Request.java:286-289 | all the values of that parameter, or null |
| Requests.IsFormEncoded | src/main/java/org/attribyte/api/http/Request.java:351-364 | a POST with parameters is form-encoded; any other request is form-encoded only when its Content-Type says so, and never without a Content-Type |
| Requests.GetServerName | src/main/java/org/attribyte/api/http/Request.java:383-395 | null iff the Host header is missing or empty; otherwise the Host value up to its first ':', which contains no ':' |
| Requests.TrimmedNonEmpty | src/main/java/org/attribyte/api/http/Request.java:413-418 | every component kept is non-empty and already trimmed |
| Requests.CollectComponents | src/main/java/org/attribyte/api/http/Request.java:439-444 | the loop keeps exactly the trimmed, non-empty tokens, in order |
| Requests.PathComponents | src/main/java/org/attribyte/api/http/Request.java:429-446 | a path shorter than two characters has no components; otherwise the tokens after the first character are split at '/' |
| Requests.PathComponentsAsWrittenDropsFirst | src/main/java/org/attribyte/api/http/Request.java:401-421 | as written, the instance method gives ["b"] for "/a/b": the first component is lost |
| Requests.GetPathComponents | src/main/java/org/attribyte/api/http/Request.java:401-421 | corrected instance method: a missing path throws NullPointerException; otherwise it yields what the static method yields |
| Requests.TokensSkipLeadingDelimiter | src/main/java/org/attribyte/api/http/Request.java:408-411 | a leading delimiter adds no token |
| Requests.InstanceAgreesWithStatic | src/main/java/org/attribyte/api/http/Request.java:401-446 | for a path starting with '/', splitting the whole path and splitting it without the leading '/' give the same components |
| Requests.AddHeaders | src/main/java/org/attribyte/api/http/Request.java:453-459 | the copy keeps the request unchanged except its headers, which the given headers override by name |
| Requests.BodyFromInputStream | src/main/java/org/attribyte/api/http/Request.java:473-488 | a negative limit is an IllegalArgumentException; a stream of at least the limit is a data-limit failure; a shorter stream that reads cleanly gives all its bytes |
| Requests.Pair | src/main/java/org/attribyte/api/http/Request.java:535-544 | corrected split of "name=value" at the first '=': without '=' the value is empty; otherwise the name holds no '=' |
| Requests.ParseParametersAsWrittenNameBug | src/main/java/org/attribyte/api/http/Request.java:542 | as written, "a=b" is stored under the name "=b", not "a" |
| Requests.ParseParametersSinglePair | src/main/java/org/attribyte/api/http/Request.java:520-559 | corrected parse of "a=b" gives one parameter a with value b |
| Requests.ParseParametersLowerCases | src/main/java/org/attribyte/api/http/Request.java:525-548 | a leading '?' is skipped, and names are lower-cased when names are case-insensitive |
| Requests.ParseTokensKeys | src/main/java/org/attribyte/api/http/Request.java:546-555 | a key is parsed iff it is the name of some token, in the case the flag selects; each parameter is stored under its own key, lower-case when names are case-insensitive |
| Requests.ParseTokensAppends | src/main/java/org/attribyte/api/http/Request.java:550-555 | a repeated name gets each further value appended after those already parsed |
| Requests.AddToken | src/main/java/org/attribyte/api/http/Request.java:535-555 | one token adds its value under its name; with the flag set the name is `nv.substring(index)` as written, otherwise the corrected text before '=' |
| Requests.ParseParameters | src/main/java/org/attribyte/api/http/Request.java:520-559 | with the flag set, the loop computes the as-written map `ParseParametersAsWritten` (names keep the '='); corrected: without it, the loop computes `ParsedParameters` |
| Responses.IsOK | src/main/java/org/attribyte/api/http/Response.java:87-89 | OK iff the status code is in 200..299 |
| Responses.CodeConstants | src/main/java/org/attribyte/api/http/Response.java:40-80 | 200, 202 and 204 are OK; 199, 300, 400, 401 and 500 are not |
| Responses.LowerCaseLookup | src/main/java/org/attribyte/api/http/Response.java:153-166 | a response header is found only under the lower-cased name |
| Responses.Charset | src/main/java/org/attribyte/api/http/Response.java:192-203 | the charset is everything after the first "charset=", with no trimming; the default applies without a Content-Type or a "charset=" |
| Responses.CharsetAfterParameter | src/main/java/org/attribyte/api/http/Response.java:192-203 | "text/html; charset=" followed by a charset yields that charset exactly |
| Responses.ByteSource.Read | src/main/java/org/attribyte/api/http/StreamedResponse.java:46-48 | each read returns the byte source's bytes or its IOException, and counts the read |
| Responses.Response.constructor | src/main/java/org/attribyte/api/http/Response.java:98-102 | the response keeps its status, headers and copied body |
| Responses.Response.StreamedResponse | src/main/java/org/attribyte/api/http/StreamedResponse.java:38-43 | the body source is stored but not read |
| Responses.Response.GetBody | src/main/java/org/attribyte/api/http/StreamedResponse.java:46-48 | a streamed body is read afresh on each call; a missing source gives null; a failing source gives an IOException |
| Responses.Response.GetBodySource | src/main/java/org/attribyte/api/http/StreamedResponse.java:54-56 | the stored source comes back unread |
| Responses.Response.SetHeader | src/main/java/org/attribyte/api/http/Response.java:141-146 | the lower-cased key now holds just this value, as both lookups then report; attributes do not change |
| Responses.Response.GetHeaderValue | src/main/java/org/attribyte/api/http/Response.java:153-156 | the first value under the lower-cased name, or null iff there is no such key |
| Responses.Response.GetHeaderValues | src/main/java/org/attribyte/api/http/Response.java:163-166 | every value under the lower-cased name, or null iff there is no such key |
| Responses.Response.GetCharset | src/main/java/org/attribyte/api/http/Response.java:182-184 | without a Content-Type header the default charset is returned |
| Responses.Response.SetAttribute | src/main/java/org/attribyte/api/http/Response.java:220-225 | the attribute map is created on first use; the value then replaces any earlier one and is read back |
| Responses.Response.GetAttribute | src/main/java/org/attribyte/api/http/Response.java:232-234 | null before any attribute is set and for an unknown name; otherwise the stored value |
| Responses.ResponseBuilder.constructor | src/main/java/org/attribyte/api/http/ResponseBuilder.java:32-33 | a new builder has status 0 and no headers, attributes or body |
| Responses.ResponseBuilder.WithStatus | src/main/java/org/attribyte/api/http/ResponseBuilder.java:39-41 | a builder with the given status and no headers, attributes, body, statistics or timing |
| Responses.ResponseBuilder.WithBody | src/main/java/org/attribyte/api/http/ResponseBuilder.java:48-51 | the builder keeps the caller's array itself, not a copy |
| Responses.ResponseBuilder.WithText | src/main/java/org/attribyte/api/http/ResponseBuilder.java:58-65 | the body is the UTF-8 encoding of the text |
| Responses.ResponseBuilder.SetStatusCode | src/main/java/org/attribyte/api/http/ResponseBuilder.java:72-75 | only the status changes |
| Responses.ResponseBuilder.SetBody | src/main/java/org/attribyte/api/http/ResponseBuilder.java:82-85 | the builder keeps a reference to the caller's array; nothing else changes |
| Responses.ResponseBuilder.SetBodyText | src/main/java/org/attribyte/api/http/ResponseBuilder.java:95-104 | the body becomes a fresh array holding the UTF-8 encoding of the text |
| Responses.ResponseBuilder.SetStats | src/main/java/org/attribyte/api/http/impl/jetty/BufferingResponseListener.java:92 | only the statistics change |
| Responses.ResponseBuilder.SetTiming | src/main/java/org/attribyte/api/http/impl/jetty/TimingListener.java:110-130 | only the timing changes |
| Responses.ResponseBuilder.AddHeader | src/main/java/org/attribyte/api/http/ResponseBuilder.java:120-129 | headers are grouped under the lower-cased name, and a value is appended to an existing header; nothing else changes |
| Responses.ResponseBuilder.AddHeaderList | src/main/java/org/attribyte/api/http/ResponseBuilder.java:136-143 | each header is put under its own name, replacing any earlier one; a null list is ignored |
| Responses.ResponseBuilder.AddHeaderMap | src/main/java/org/attribyte/api/http/ResponseBuilder.java:150-155 | a null map is ignored; a null element throws and nothing is merged; otherwise the converted map is merged in |
| Responses.ResponseBuilder.AddAttribute | src/main/java/org/attribyte/api/http/ResponseBuilder.java:163-169 | the map is created on first use, then the attribute is put |
| Responses.ResponseBuilder.AddAttributes | src/main/java/org/attribyte/api/http/ResponseBuilder.java:176-181 | a null map is ignored; a non-null map given before any addAttribute throws NullPointerException; otherwise it is merged in |
| Responses.ResponseBuilder.Create | src/main/java/org/attribyte/api/http/ResponseBuilder.java:110-112 | a fresh response with the builder's status, headers and attributes and a copy of the body array as it is at that moment |
| Responses.AddedHeaderLookup | src/main/java/org/attribyte/api/http/ResponseBuilder.java:120-129 | a header added through the builder is found through any letter case of its name, with the earlier values followed by the new one |
| RequestBuilders.PutCreatesPostAsWritten | src/main/java/org/attribyte/api/http/PutRequestBuilder.java:71-73 | as written, the PUT builder creates a POST request |
| RequestBuilders.CreatedMethod | src/main/java/org/attribyte/api/http/PutRequestBuilder.java:72 | corrected: each builder creates the method it is named after, and only the two POST builders create POST |
| RequestBuilders.RequestBuilder.WithQuery | src/main/java/org/attribyte/api/http/RequestBuilderWithParameters.java:35-48 | the HEAD and OPTIONS builders seed their parameters from the URI's query string, with names in the case the flag selects; with `asWritten`, as the builders call it, the parse is `ParseParametersAsWritten`; corrected: without it, `ParsedParameters` |
| RequestBuilders.RequestBuilder.FormPost | src/main/java/org/attribyte/api/http/FormPostRequestBuilder.java:32-42 | the case flag is true, and the query string is kept but not parsed into parameters |
| RequestBuilders.RequestBuilder.WithBodyArray | src/main/java/org/attribyte/api/http/PostRequestBuilder.java:34-47 | the POST, PUT and PATCH builders copy the body array when they are built |
| RequestBuilders.RequestBuilder.WithByteString | src/main/java/org/attribyte/api/http/PostRequestBuilder.java:55-68 | a ByteString body is stored as given |
| RequestBuilders.RequestBuilder.AddHeader | src/main/java/org/attribyte/api/http/RequestBuilder.java:65-74 | headers are grouped under the lower-cased name, and a value is appended to an existing header; nothing else changes |
| RequestBuilders.RequestBuilder.AddHeaderList | src/main/java/org/attribyte/api/http/RequestBuilder.java:81-88 | each header is put under its own name; a null list is ignored |
| RequestBuilders.RequestBuilder.AddHeaderMap | src/main/java/org/attribyte/api/http/RequestBuilder.java:95-100 | a null map is ignored; a null element throws; otherwise Header.createMap's result is merged in |
| RequestBuilders.RequestBuilder.AddAttribute | src/main/java/org/attribyte/api/http/RequestBuilder.java:108-111 | the attribute is put, replacing any earlier one |
| RequestBuilders.RequestBuilder.AddAttributes | src/main/java/org/attribyte/api/http/RequestBuilder.java:118-123 | a null map is ignored; otherwise it is merged in |
| RequestBuilders.RequestBuilder.AddParameter | src/main/java/org/attribyte/api/http/RequestBuilderWithParameters.java:55-63 | the value is appended under the key, which is lower-cased when the flag is true (the flag's sense is inverted from that of the constructor) |
| RequestBuilders.RequestBuilder.SetParameter | src/main/java/org/attribyte/api/http/RequestBuilderWithParameters.java:71-74 | the key gets the copied values, replacing any earlier parameter |
| RequestBuilders.RequestBuilder.AddParameters | src/main/java/org/attribyte/api/http/RequestBuilderWithParameters.java:85-89 | Parameter.createMap's result is merged in; a null element throws |
| RequestBuilders.RequestBuilder.Create | src/main/java/org/attribyte/api/http/HeadRequestBuilder.java:88-90 | with `asWritten` the method is `CreatedMethodAsWritten` (POST for the PUT builder, as PutRequestBuilder.java:72 has it); corrected: without it, `CreatedMethod`; the request carries the builder's URI, headers and attributes; the parameter builders carry parameters and no body, the body builders a body and no parameters |
| RequestBuilders.CopyBytes | src/main/java/org/attribyte/api/http/PostRequestBuilder.java:55-68 | copying gives the array's contents at the time of the call |
| RequestBuilders.AddedHeaderIsFound | src/main/java/org/attribyte/api/http/RequestBuilder.java:65-74 | a header added through the builder is found again by the created request's lookup, with the added value last |
| RequestBuilders.AddParameterKeyInverted | src/main/java/org/attribyte/api/http/RequestBuilderWithParameters.java:57 | for a name with upper-case letters, the query parser and addParameter choose opposite keys under the same flag |
| JavaText.Utf8RoundTrip | src/main/java/org/attribyte/api/http/impl/BasicAuthScheme.java:89 | decoding with `new String(bytes, UTF_8)` the UTF-8 encoding of any string gives that string back |
| JavaText.Utf8EncodeInjective | src/main/java/org/attribyte/api/http/impl/BasicAuthScheme.java:116-120 | two strings with the same UTF-8 encoding are equal |
| JavaText.Utf8DecodeExamples | src/main/java/org/attribyte/api/http/impl/BasicAuthScheme.java:108 | the two bytes of "é" decode to it; a lead byte without its continuation, and an encoded surrogate, decode to U+FFFD |
| Auth.SchemeEqualsIsEquality | src/main/java/org/attribyte/api/http/AuthScheme.java:113-123 | two schemes are equal iff their scheme names and realms are equal; this equality is reflexive and symmetric |
| Auth.Challenge | src/main/java/org/attribyte/api/http/AuthScheme.java:81-86 | the challenge is the scheme name, followed by " realm=" and the realm when there is one |
| Auth.GetUnauthorizedResponse | src/main/java/org/attribyte/api/http/AuthScheme.java:80-90 | a fresh 401 response whose body is the message ("Authorization Required" when it is null), with a WWW-Authenticate header holding the challenge |
| Auth.BuildAuthHeaderValue | src/main/java/org/attribyte/api/http/impl/BasicAuthScheme.java:131-142 | the value starts with "Basic "; the rest has no white space and is the Base64 text that decodes to the UTF-8 bytes of "trimmed user:trimmed password" |
| Auth.AuthHeader | src/main/java/org/attribyte/api/http/impl/BasicAuthScheme.java:150-153 | one Authorization header carrying that value |
| Auth.AddAuth | src/main/java/org/attribyte/api/http/impl/BasicAuthScheme.java:66-68 | the request changes only in its Authorization header |
| Auth.ReadAuthorization | src/main/java/org/attribyte/api/http/impl/BasicAuthScheme.java:78-89 | no credentials iff the header is null or empty; decoding is attempted iff the value starts with "basic " in any case |
| Auth.ReadCredentials | src/main/java/org/attribyte/api/http/impl/BasicAuthScheme.java:71-74 | hasCredentials holds iff the header is a Basic one |
| Auth.UserIdOf | src/main/java/org/attribyte/api/http/impl/BasicAuthScheme.java:89-91 | undecodable Base64 throws; the user id is the text before the first ':' and exists iff that colon is not at position 0 |
| Auth.GetUserId | src/main/java/org/attribyte/api/http/impl/BasicAuthScheme.java:77-92 | getUserId throws exactly when the Basic value does not decode, and a returned id is the part before the first colon |
| Auth.VerdictOf | src/main/java/org/attribyte/api/http/impl/BasicAuthScheme.java:108-122 | a non-Basic header gives the invalid-scheme verdict; a colon missing or at position 0 gives invalid-format; undecodable input throws |
| Auth.CheckCredentials | src/main/java/org/attribyte/api/http/impl/BasicAuthScheme.java:95-123 | "unauthorized" means no credentials or credentials that do not match; any other verdict except invalid-scheme implies credentials were present |
| Auth.AcceptedIffCredentialsMatch | src/main/java/org/attribyte/api/http/impl/BasicAuthScheme.java:110-121 | for any text, comparing the SHA-1 hashes accepts exactly when the colon is past position 0 and the decoded text equals userId:secret |
| Auth.JoinedEncoding | src/main/java/org/attribyte/api/http/impl/BasicAuthScheme.java:116-120 | hashing the three UTF-8 pieces one after another hashes the UTF-8 of the joined string |
| Auth.UserIdRoundTrip | src/main/java/org/attribyte/api/http/impl/BasicAuthScheme.java:77-92 | after addAuth with a user id that is non-empty once trimmed and has no colon, getUserId returns the trimmed id, whatever its characters |
| Auth.AddedAuthAccepted | src/main/java/org/attribyte/api/http/impl/BasicAuthScheme.java:95-123 | a request signed by addAuth has credentials, and authenticate accepts it for a userId and secret exactly when their join is the trimmed id and secret sent, with its first colon past position 0; so the trimmed id and secret themselves are accepted when the id is non-empty without a colon |
| Auth.ReadHeaderCredentials | src/main/java/org/attribyte/api/http/impl/BasicAuthScheme.java:97-108 | the reading steps of authenticate compute the credentials above |
| Auth.DecideVerdict | src/main/java/org/attribyte/api/http/impl/BasicAuthScheme.java:110-122 | the branches of authenticate compute the verdict above |
| Auth.BasicAuthScheme.constructor | src/main/java/org/attribyte/api/http/impl/BasicAuthScheme.java:39-63 | the scheme is "Basic" with the realm ("" for null), and the three canned 401 responses carry the "Invalid format", "Invalid scheme" and default messages |
| Auth.BasicAuthScheme.Authenticate | src/main/java/org/attribyte/api/http/impl/BasicAuthScheme.java:95-123 | undecodable input throws; acceptance returns null; every other verdict returns its canned response |
| Base64.ValueOfCharOf | src/main/java/org/attribyte/api/http/impl/BasicAuthScheme.java:138 | the Base64 alphabet maps each 6-bit value to a character and back |
| Base64.Encode | src/main/java/org/attribyte/api/http/impl/BasicAuthScheme.java:138 | the encoding is empty iff the input is, and it contains no white space |
| Base64.Decode | src/main/java/org/attribyte/api/http/impl/BasicAuthScheme.java:89 | a text whose unpadded length leaves remainder 1 modulo 4 cannot be decoded (null here, a thrown exception in Java) |
| Base64.DecodeEncode | src/main/java/org/attribyte/api/http/impl/BasicAuthScheme.java:138 | decoding the encoding of any bytes gives those bytes back |
| JavaInt.Int32 | src/main/java/org/attribyte/api/http/impl/jetty/BufferingResponseListener.java:47-48 | the result is the 32-bit two's-complement wrap of the value |
| JavaInt.HighestOneBit | src/main/java/org/attribyte/api/http/impl/jetty/BufferingResponseListener.java:48 | Integer.highestOneBit of a positive int is the greatest power of two not above it |
| JavaInt.DoubledHighestBit | src/main/java/org/attribyte/api/http/impl/jetty/BufferingResponseListener.java:48 | shifting that bit left doubles it below 2^30 |
| JavaInt.DoubledHighestBitWraps | src/main/java/org/attribyte/api/http/impl/jetty/BufferingResponseListener.java:48 | at 2^30 and above, the doubled bit wraps to a negative int |
| JettyBuffer.NewCapacity | src/main/java/org/attribyte/api/http/impl/jetty/BufferingResponseListener.java:47-48 | the requested capacity never exceeds maxLength |
| JettyBuffer.EnsureCapacity | src/main/java/org/attribyte/api/http/impl/jetty/BufferingResponseListener.java:49 | the content keeps its bytes; an existing buffer grows to the larger of the two capacities, and no buffer gets exactly the requested one; a negative request with no buffer is an IllegalArgumentException |
| JettyBuffer.Append | src/main/java/org/attribyte/api/http/impl/jetty/BufferingResponseListener.java:51 | appending to no buffer throws NullPointerException; otherwise as much of the chunk as fits is appended |
| JettyBuffer.Buffered | src/main/java/org/attribyte/api/http/impl/jetty/BufferingResponseListener.java:37-52 | one onContent keeps the buffer within maxLength and adds a prefix of the chunk; it throws only when there is still no buffer |
| JettyBuffer.NewCapacityCovers | src/main/java/org/attribyte/api/http/impl/jetty/BufferingResponseListener.java:47-48 | below 2^30, the new capacity covers what is needed, up to maxLength |
| JettyBuffer.BufferedUpToMax | src/main/java/org/attribyte/api/http/impl/jetty/BufferingResponseListener.java:42-51 | a chunk is kept up to maxLength, and the response is aborted iff the total would exceed maxLength |
| JettyBuffer.BufferedAllIsPrefix | src/main/java/org/attribyte/api/http/impl/jetty/BufferingResponseListener.java:37-52 | over any run of chunks the buffer holds the first maxLength bytes of the body, and some chunk aborts iff the body is longer than maxLength |
| JettyBuffer.GrowthStopsAtOneGiB | src/main/java/org/attribyte/api/http/impl/jetty/BufferingResponseListener.java:47-49 | with 2^30 bytes buffered and no limit, the doubled capacity wraps negative and a further chunk is silently dropped without an abort |
| JettyBuffer.ContentBuffer.GetContent | src/main/java/org/attribyte/api/http/impl/jetty/BufferingResponseListener.java:105-107 | a fresh array of the buffered bytes, empty when there is no buffer |
| JettyBuffer.ContentBuffer.Add | src/main/java/org/attribyte/api/http/impl/jetty/BufferingResponseListener.java:41-51 | the buffer steps as Buffered says, and the response is aborted exactly when the chunk would pass maxLength |
| JettyStats.Size | src/main/java/org/attribyte/api/http/impl/jetty/StatsListener.java:258-265 | the loop totals the header sizes |
| JettyStats.FieldsSizeBounds | src/main/java/org/attribyte/api/http/impl/jetty/StatsListener.java:258-265 | each header contributes at least its name and two characters |
| JettyStats.FieldsSizeAppend | src/main/java/org/attribyte/api/http/impl/jetty/StatsListener.java:258-265 | the size of two header lists together is the sum of their sizes |
| JettyStats.StatsListener.OnQueued | src/main/java/org/attribyte/api/http/impl/jetty/StatsListener.java:36-39 | only the queued time is recorded |
| JettyStats.StatsListener.OnRequestBegin | src/main/java/org/attribyte/api/http/impl/jetty/StatsListener.java:41-44 | only the request-begin time is recorded |
| JettyStats.StatsListener.OnRequestHeaders | src/main/java/org/attribyte/api/http/impl/jetty/StatsListener.java:46-50 | the request header count and size are recorded |
| JettyStats.StatsListener.OnCommit | src/main/java/org/attribyte/api/http/impl/jetty/StatsListener.java:52-55 | only the sent time is recorded |
| JettyStats.StatsListener.OnRequestContent | src/main/java/org/attribyte/api/http/impl/jetty/StatsListener.java:57-63 | the request chunk count goes up by one and the body size by the chunk's remaining bytes |
| JettyStats.StatsListener.OnRequestComplete | src/main/java/org/attribyte/api/http/impl/jetty/StatsListener.java:65-73 | success and failure both record the request-complete time |
| JettyStats.StatsListener.OnResponseBegin | src/main/java/org/attribyte/api/http/impl/jetty/StatsListener.java:77-80 | only the status-received time is recorded |
| JettyStats.StatsListener.OnHeader | src/main/java/org/attribyte/api/http/impl/jetty/StatsListener.java:82-88 | the first header's time is recorded once, and every header is accepted |
| JettyStats.StatsListener.OnResponseHeaders | src/main/java/org/attribyte/api/http/impl/jetty/StatsListener.java:90-95 | the last-header time, count and size are recorded |
| JettyStats.StatsListener.OnResponseContent | src/main/java/org/attribyte/api/http/impl/jetty/StatsListener.java:97-104 | the first content time is recorded once; both live counters grow |
| JettyStats.StatsListener.OnResponseComplete | src/main/java/org/attribyte/api/http/impl/jetty/StatsListener.java:106-114 | success and failure both record the complete time |
| JettyStats.StatsListener.Timing | src/main/java/org/attribyte/api/http/impl/jetty/StatsListener.java:209-219 | each of the seven durations is its milestone's tick minus the queued tick, negative values included; the last-header duration is present |
| JettyStats.StatsListener.Stats | src/main/java/org/attribyte/api/http/impl/jetty/StatsListener.java:225-238 | the statistics carry that timing and share the live counters |
| JettyStats.TimingIsRelative | src/main/java/org/attribyte/api/http/impl/jetty/StatsListener.java:209-219 | shifting every recorded tick by the same amount leaves the timing unchanged |
| JettyExchange.JettyResponse.Abort | src/main/java/org/attribyte/api/http/impl/jetty/BufferingResponseListener.java:44-46 | only the first abort takes effect and reports success |
| Futures.ResponseFuture.Set | src/main/java/org/attribyte/api/http/impl/jetty/ListenableFutureResponseListener.java:29-32 | the first outcome wins; later ones are refused |
| Futures.ResponseFuture.SetException | src/main/java/org/attribyte/api/http/impl/jetty/ListenableFutureResponseListener.java:34-37 | the first outcome wins; later ones are refused |
| JettyListeners.TruncatedAttributes | src/main/java/org/attribyte/api/http/impl/jetty/BufferingResponseListener.java:94-96 | only a truncated response carries an attribute, "truncated" = true |
| JettyListeners.FromResult | src/main/java/org/attribyte/api/http/impl/jetty/BufferingResponseListener.java:79-99 | the builder gets the status, every header field in order, the body, the statistics and the truncation mark |
| JettyListeners.BufferingResponseListener.ListenableFutureResponseListener | src/main/java/org/attribyte/api/http/impl/jetty/ListenableFutureResponseListener.java:22-27 | a listener with fresh statistics, an empty buffer and the caller's future |
| JettyListeners.BufferingResponseListener.OnHeaders | src/main/java/org/attribyte/api/http/impl/jetty/BaseResponseListener.java:49-62 | the header statistics are recorded; a declared length above maxLength aborts unless truncation is allowed (the HEAD exception follows the code) |
| JettyListeners.BufferingResponseListener.OnContent | src/main/java/org/attribyte/api/http/impl/jetty/BufferingResponseListener.java:37-52 | the content statistics are recorded and the buffer steps as Buffered says, aborting past maxLength |
| JettyListeners.BufferingResponseListener.GetContent | src/main/java/org/attribyte/api/http/impl/jetty/BufferingResponseListener.java:105-107 | a fresh copy of the buffered bytes |
| JettyListeners.BufferingResponseListener.OnComplete | src/main/java/org/attribyte/api/http/impl/jetty/BufferingResponseListener.java:66-77 | on success, or on a capacity failure when truncation is allowed, the future receives the built response (marked truncated in the second case); any other failure goes to the future |
| JettyListeners.NewListenableFutureResponseListener | src/main/java/org/attribyte/api/http/impl/jetty/BaseResponseListener.java:39-47 | a negative maximum is refused with "Invalid max length n"; any other is accepted |
| JettyListeners.TimingListener.OnQueued | src/main/java/org/attribyte/api/http/impl/jetty/TimingListener.java:34-37 | only the queued tick is recorded |
| JettyListeners.TimingListener.OnCommit | src/main/java/org/attribyte/api/http/impl/jetty/TimingListener.java:49-52 | only the sent tick is recorded |
| JettyListeners.TimingListener.OnRequestComplete | src/main/java/org/attribyte/api/http/impl/jetty/TimingListener.java:58-66 | success and failure both record the request-complete tick |
| JettyListeners.TimingListener.OnResponseBegin | src/main/java/org/attribyte/api/http/impl/jetty/TimingListener.java:68-71 | only the status tick is recorded |
| JettyListeners.TimingListener.OnHeader | src/main/java/org/attribyte/api/http/impl/jetty/TimingListener.java:73-77 | every header overwrites the first-header tick, so it ends at the last header's tick, unlike StatsListener's once-only stamp; the header is accepted |
| JettyListeners.TimingListener.OnHeaderOnce | src/main/java/org/attribyte/api/http/impl/jetty/TimingListener.java:73-77 | corrected: only the first header stamps the tick, as StatsListener.onHeader does; the header is accepted |
| JettyListeners.LastHeaderWinsAsWritten | src/main/java/org/attribyte/api/http/impl/jetty/TimingListener.java:73-77 | as written, after any run of headers the first-header tick is the last header's tick, and no other tick changes |
| JettyListeners.FirstHeaderKeptOnce | src/main/java/org/attribyte/api/http/impl/jetty/TimingListener.java:73-77 | corrected, starting unset and with non-zero ticks, the tick kept is the first header's, and no other tick changes |
| JettyListeners.TimingListener.OnContent | src/main/java/org/attribyte/api/http/impl/jetty/TimingListener.java:79-85 | the first content tick is recorded once, and the content is buffered as the base listener does |
| JettyListeners.TimingListener.OnResponseComplete | src/main/java/org/attribyte/api/http/impl/jetty/TimingListener.java:87-95 | success and failure both record the complete tick |
| JettyListeners.TimingListener.Timing | src/main/java/org/attribyte/api/http/impl/jetty/TimingListener.java:148-157 | the first duration is the sent tick minus the queued tick; every later one is its milestone's tick minus the sent tick; there is no last-header duration |
| JettyListeners.TimingMeasuredFromSent | src/main/java/org/attribyte/api/http/impl/jetty/TimingListener.java:148-157 | moving the sent tick by d lengthens the first duration by d and shortens every later one by d |
| JettyListeners.TimingAddsUpFromQueued | src/main/java/org/attribyte/api/http/impl/jetty/TimingListener.java:148-157 | the first duration plus any later one is that milestone measured from the queued tick |
| JettyListeners.TimingListener.OnComplete | src/main/java/org/attribyte/api/http/impl/jetty/TimingListener.java:97-108 | the same three outcomes as the buffering listener, and the built response also carries the timing |
| JettyListeners.NewTimingListener | src/main/java/org/attribyte/api/http/impl/jetty/BaseResponseListener.java:39-47 | a negative maximum is refused; otherwise the listener and its base are fresh |
| JettyListeners.TestResponseListener.constructor | src/main/java/org/attribyte/api/http/impl/jetty/TestResponseListener.java:30-34 | no byte limit and no truncation, so every failure, a capacity abort included, fails the future (TestResponseListener.java:52-67); nothing hashed yet |
| JettyListeners.TestResponseListener.OnHeaders | src/main/java/org/attribyte/api/http/impl/jetty/BaseResponseListener.java:49-62 | the same header handling as the base listener |
| JettyListeners.TestResponseListener.OnContent | src/main/java/org/attribyte/api/http/impl/jetty/TestResponseListener.java:36-41 | the bytes are hashed in order, and the int length wraps around |
| JettyListeners.TestResponseListener.OnComplete | src/main/java/org/attribyte/api/http/impl/jetty/TestResponseListener.java:52-67 | on success the future receives a response whose attributes hold the length and the SHA-256 hash; a failure goes to the future |
| JettyChain.CopyOf | src/main/java/org/attribyte/api/http/impl/jetty/ListenerChain.java:39-42 | a null list becomes empty; a list with a null element throws NullPointerException; otherwise the elements are kept in order |
| JettyChain.ListenerChain.Forward | src/main/java/org/attribyte/api/http/impl/jetty/ListenerChain.java:44-77 | the event reaches each listener once, in list order |
| JettyChain.ListenerChain.OnRequestEvent | src/main/java/org/attribyte/api/http/impl/jetty/ListenerChain.java:44-77 | each request event goes to every request listener in order |
| JettyChain.ListenerChain.OnResponseEvent | src/main/java/org/attribyte/api/http/impl/jetty/ListenerChain.java:79-128 | each response event goes to every response listener in order |
| JettyChain.ListenerChain.OnHeader | src/main/java/org/attribyte/api/http/impl/jetty/ListenerChain.java:104-113 | every listener sees the header, even after one refuses it, and the header is accepted iff all accept it |
| JettyChain.NewListenerChain | src/main/java/org/attribyte/api/http/impl/jetty/ListenerChain.java:39-42 | a null element in either list throws; otherwise the chain holds both lists and has delivered nothing |
| NingHandlers.BodyRead | src/main/java/org/attribyte/api/http/impl/ning/CompletionHandler.java:42-46 | no stream gives no body; otherwise the bounded read's result or its failure |
| NingHandlers.CompletionHandler.ListenableFutureCompletionHandler | src/main/java/org/attribyte/api/http/impl/ning/ListenableFutureCompletionHandler.java:23-26 | the handler completes the caller's future |
| NingHandlers.CompletionHandler.CompletableCompletionHandler | src/main/java/org/attribyte/api/http/impl/ning/CompletableCompletionHandler.java:24-27 | as written, the handler completes a fresh future of its own |
| NingHandlers.CompletionHandler.CompletableCompletionHandlerOnCallerFuture | src/main/java/org/attribyte/api/http/impl/ning/CompletableCompletionHandler.java:24-27 | corrected: the handler keeps the caller's future |
| NingHandlers.CompletionHandler.OnCompleted | src/main/java/org/attribyte/api/http/impl/ning/CompletionHandler.java:35-56 | a failing close is reported first; a failing read is thrown without completing; otherwise the pending future receives the status, every header value and the body |
| NingHandlers.CompletionHandler.OnThrowable | src/main/java/org/attribyte/api/http/impl/ning/CompletionHandler.java:59-61 | the failure goes to the future if it is still pending |
| NingHandlers.CompletableLeavesCallerPending | src/main/java/org/attribyte/api/http/impl/ning/CompletableCompletionHandler.java:24-32 | as written, a completed exchange leaves the caller's future pending |
| NingHandlers.CompletableCompletesCaller | src/main/java/org/attribyte/api/http/impl/ning/CompletableCompletionHandler.java:24-32 | corrected: the caller's future receives the response |
| Commons3Binding.GetMap | src/main/java/org/attribyte/api/http/impl/commons/Commons3Client.java:237-260 | the loop computes getMap over the response pairs, as written (a name's second value starts a list of that value alone) or corrected (the list keeps the first value too) as its flag says; null or no pairs give the empty map |
| Commons3Binding.CollectedKeepsEveryValue | src/main/java/org/attribyte/api/http/impl/commons/Commons3Client.java:243-257 | corrected: one pair under a name is kept as a scalar, several as a list of all their values in order |
| Commons3Binding.CollectedAsWrittenDropsFirst | src/main/java/org/attribyte/api/http/impl/commons/Commons3Client.java:251-255 | as written, a repeated name keeps every value but the first |
| Commons3Binding.GetMapAsWrittenLosesFirstValue | src/main/java/org/attribyte/api/http/impl/commons/Commons3Client.java:251-255 | as written, pairs a=1 and a=2 give ["2"]; corrected, they give ["1","2"] |
| Commons3Binding.ResponseHeadersHoldEveryValue | src/main/java/org/attribyte/api/http/impl/commons/Commons3Client.java:215 | with the corrected grouping, the response headers hold every value of every name |
| Commons3Binding.ResponseHeadersAsWritten | src/main/java/org/attribyte/api/http/impl/commons/Commons3Client.java:215-220 | with getMap as written, a name sent once keeps its value, a name sent several times keeps every value but the first, and addHeaders does not throw |
| Commons3Binding.ResponseFindsOnlyLowerCaseNames | src/main/java/org/attribyte/api/http/Response.java:153-156 | with either grouping, the built response finds a header exactly when the server sent it under the lower-cased name itself: createMap keeps each name as sent and getHeaderValue looks up only the lower-cased name |
| Commons3Binding.ContentTypeLostAsWritten | src/main/java/org/attribyte/api/http/Header.java:81-90 | as written, a response whose only header is "Content-Type: text/html" reports no Content-Type |
| Commons3Binding.ResponseFindsAnyCaseWhenKeysLowerCased | src/main/java/org/attribyte/api/http/Header.java:70-77 | corrected, with the keys lower-cased as documented, a response header is found under its name in any letter case |
| Commons3Binding.ContentTypeFoundWhenKeysLowerCased | src/main/java/org/attribyte/api/http/Header.java:70-77 | corrected, the same response reports "text/html" as its Content-Type |
| Commons3Binding.WithoutNameLookup | src/main/java/org/attribyte/api/http/impl/commons/Commons3Client.java:201 | removing headers of one name leaves lookups of every other name unchanged |
| Commons3Binding.SetRequestHeaderLookup | src/main/java/org/attribyte/api/http/impl/commons/Commons3Client.java:201 | after setRequestHeader, that name finds the new pair and other names find what they found before |
| Commons3Binding.SetRequestHeaderUnique | src/main/java/org/attribyte/api/http/impl/commons/Commons3Client.java:201 | setRequestHeader keeps header names unique, ignoring case |
| Commons3Binding.SetAllLookup | src/main/java/org/attribyte/api/http/impl/commons/Commons3Client.java:197-203 | after a run of setRequestHeader calls, each name holds its last value |
| Commons3Binding.UserAgentSent | src/main/java/org/attribyte/api/http/impl/commons/Commons3Client.java:193-203 | the client's User-Agent is sent only when the request has none or an empty one; a request header wins over it |
| Commons3Binding.SetHeaders | src/main/java/org/attribyte/api/http/impl/commons/Commons3Client.java:197-203 | the loop sets every value of every header in turn |
| Commons3Binding.PrepareMethod | src/main/java/org/attribyte/api/http/impl/commons/Commons3Client.java:156-203 | PATCH and OPTIONS leave the method null, and using it throws NullPointerException; the others build their method from the request's URI, with its body or form parameters, then the User-Agent, then every header value |
| Commons3Binding.BuildResponse | src/main/java/org/attribyte/api/http/impl/commons/Commons3Client.java:205-233 | a read failure propagates; a null list element thrown by addHeaders propagates; otherwise the response has the status, exactly the converted getMap result as headers (as written when its flag is set, which is what send does; corrected otherwise), and a body only when one is non-empty |
| JdkBinding.FormEncodeRoundTrip | src/main/java/org/attribyte/api/http/impl/jdk/JdkClient.java:256-258 | URL-decoding the form encoding of any text gives back its UTF-8 bytes |
| JdkBinding.FormEncodeChars | src/main/java/org/attribyte/api/http/impl/jdk/JdkClient.java:256-258 | form encoding uses only unreserved characters, '+', '%' and hex digits, so it never contains '&' or '=' |
| JdkBinding.HexRoundTrip | src/main/java/org/attribyte/api/http/impl/jdk/JdkClient.java:256-258 | the two hex digits of a byte read back as that byte |
| JdkBinding.EncodeFormParameters | src/main/java/org/attribyte/api/http/impl/jdk/JdkClient.java:248-263 | the loop builds the form body: every value of every parameter as name=value, joined by '&' |
| JdkBinding.FormBodyEmpty | src/main/java/org/attribyte/api/http/impl/jdk/JdkClient.java:248-263 | the form body is empty iff there are no parameters |
| JdkBinding.FormBodyDecodes | src/main/java/org/attribyte/api/http/impl/jdk/JdkClient.java:248-263 | splitting the body at '&' and '=' recovers each encoded name and value, in order |
| JdkBinding.BodyPublisherOf | src/main/java/org/attribyte/api/http/impl/jdk/JdkClient.java:169-211 | a POST with parameters sends the form body; a POST without parameters, or a PUT or PATCH, with a body sends those bytes; everything else sends nothing |
| JdkBinding.PublishBody | src/main/java/org/attribyte/api/http/impl/jdk/JdkClient.java:181-192 | the form-encoded Content-Type is added exactly when the form body is sent |
| JdkBinding.ToJdkRequest | src/main/java/org/attribyte/api/http/impl/jdk/JdkClient.java:162-228 | the JDK request has the URI, the method name, a timeout only when it is positive, the body above, and every header value followed by the client's User-Agent when the request has none |
| JdkBinding.ToResponse | src/main/java/org/attribyte/api/http/impl/jdk/JdkClient.java:230-246 | the response has the status, every value of every header, and a body only when one is non-empty |
| JdkBinding.CompleteAsyncSend | src/main/java/org/attribyte/api/http/impl/jdk/JdkClient.java:125-141 | a failed exchange fails the future; a successful one completes it, unless it has already finished |
| Robots.NoRobots | src/main/java/org/attribyte/api/http/util/RobotsTxt.java:282 | the empty robots.txt has no agents and no records |
| Robots.GetValue | src/main/java/org/attribyte/api/http/util/RobotsTxt.java:263-276 | no colon, or a colon at the end, gives null; otherwise the trimmed text after the colon, cut at a '#' found past position 0; a '#' before the colon throws |
| Robots.PreserveAgents | src/main/java/org/attribyte/api/http/util/RobotsTxt.java:121-128 | null keeps every agent; otherwise "*" and the trimmed, lower-cased agents given |
| Robots.ClassifyLine | src/main/java/org/attribyte/api/http/util/RobotsTxt.java:135-140 | blank and comment lines are skipped; other lines are trimmed and lower-cased before their directive is recognised by prefix |
| Robots.ApplyDirective | src/main/java/org/attribyte/api/http/util/RobotsTxt.java:142-186 | the directive step computes the parser's step function `Apply`: User-agent, Disallow and Allow lines update the records, and any other line ends the run of agents |
| Robots.ParseWith | src/main/java/org/attribyte/api/http/util/RobotsTxt.java:133-189 | the line loop computes the parse of all lines |
| Robots.Parse | src/main/java/org/attribyte/api/http/util/RobotsTxt.java:119-190 | the constructor's result is `Parsed` of the lines under the preserved agents |
| Robots.IsAllowed | src/main/java/org/attribyte/api/http/util/RobotsTxt.java:216-260 | the loops compute `Allowed`: the path is normalised, the agent's record is looked up (falling back to the wildcard), and the allow list then the disallow list decide |
| Robots.NoRobotsAllowsAll | src/main/java/org/attribyte/api/http/util/RobotsTxt.java:108-110 | the empty robots.txt allows every path to every agent |
| Robots.ScanWithoutMarker | src/main/java/org/attribyte/api/http/util/RobotsTxt.java:232-242 | a list without the empty marker decides iff some entry is a prefix of the path |
| Robots.DisallowOnly | src/main/java/org/attribyte/api/http/util/RobotsTxt.java:244-260 | with only disallow entries, a path is refused iff a listed prefix matches it |
| Robots.AllowOnly | src/main/java/org/attribyte/api/http/util/RobotsTxt.java:244-246 | with only allow entries, everything not explicitly allowed is refused |
| Robots.AllowWinsOverDisallow | src/main/java/org/attribyte/api/http/util/RobotsTxt.java:232-242 | a matching allow entry decides before any disallow entry |
| Robots.EmptyAllowRefusesAll | src/main/java/org/attribyte/api/http/util/RobotsTxt.java:235-236 | an empty "Allow:" reached first refuses every path |
| Robots.ConsecutiveAgentsShare | src/main/java/org/attribyte/api/http/util/RobotsTxt.java:145-154 | consecutive User-agent lines share one record |
| Robots.AgentAfterDirectiveStartsRecord | src/main/java/org/attribyte/api/http/util/RobotsTxt.java:145-148 | a User-agent line after a directive starts a new record |
| Robots.UnpreservedAgentDropped | src/main/java/org/attribyte/api/http/util/RobotsTxt.java:150-154 | an agent outside the preserved set gets no entry |
| Robots.PathBeforeAgentIgnored | src/main/java/org/attribyte/api/http/util/RobotsTxt.java:164 | a directive before any User-agent line is ignored |
| Robots.DisallowAppends | src/main/java/org/attribyte/api/http/util/RobotsTxt.java:157-169 | a Disallow line appends its path (the empty marker when it has none) to the current record |
| Robots.GetValueCutsComment | src/main/java/org/attribyte/api/http/util/RobotsTxt.java:270-272 | a trailing comment is cut from the value |
| Robots.GetValueCommentBeforeColon | src/main/java/org/attribyte/api/http/util/RobotsTxt.java:270-272 | a '#' before the colon makes substring throw |

## Left out

- Transport: sending, `init`, `shutdown`, connection pools and the network. This covers the
  `send` bodies of the Jetty, ning and Commons 4 clients, `JettyClient`, `NingClient` and
  `Commons4Client`. Only the conversion code around them is modelled.
- Concurrency: the futures are completed one call at a time, and there is no thread
  interleaving.
- Clocks: the period the Jetty listeners measure is passed in as a tick parameter.
- `java.net.URI` parsing:
  - `getRequestPath(String)`, `getHostURL` and `getQueryString` are not modelled;
  - a URI is given already split into host, path and query.
- `Request.toString`, `Response.toString`, `Cookie.toString` and `Stats.toString` are not
  modelled. Only the `toString` of the named values is.
- Hashing:
  - SHA-1 and SHA-256 are symbolic: a digest is its algorithm and input, so it is
    collision-free;
  - `AuthScheme.hashCode` is not modelled.
- Java `String.toLowerCase`, `toUpperCase` and `trim` are modelled on ASCII letters and on
  characters up to U+0020. Locale-specific case mapping is not modelled.
- UTF-8 encoding assumes no lone UTF-16 surrogates: a Dafny `char` is a Unicode scalar value.
- JavaText.Utf8Decode: replaces each ill-formed part of its input by one U+FFFD, covering the
  longest prefix of a well-formed sequence. That Java's decoder emits the same number of
  replacements for every ill-formed input, a sequence cut short at the end in particular, is not
  claimed. Well-formed input, and so every round trip, decodes exactly.
- `URLDecoder` is modelled only as far as bytes: its decoding back to a string is not.
- Jetty's `BufferUtil`:
  - `space`, `ensureCapacity`, `append` and `toArray` are modelled from their documented
    behaviour, since Jetty is not part of this model;
  - `ByteBuffer` position and limit bookkeeping is not modelled;
  - `TestResponseListener`'s consumption of the buffer is not modelled.
- Commons HttpClient's `setRequestHeader` is modelled from its documented behaviour: it
  replaces every header of that name, ignoring case.
- The order in which a `HashMap` is iterated is a parameter. Properties that hold whatever the
  order are proved for every order.
- `RobotsTxt.parse(host, client)`: its fetch and its fallback to `NO_ROBOTS` on error are not
  modelled. Only the parse of given lines and the decision are.
- Left out entirely, since they are context rather than core: `Bridge`, `ClientOptions`,
  `InputStreamResponseListener` and `DebugListener`.
- What ning does with an exception thrown from `onCompleted` is not modelled. The exception is
  returned to the caller.
- RequestBuilders.RequestBuilder.Create: the request carries no cookies and no
  `caseSensitiveParameters` flag. The model follows the six-argument `Request` constructor
  (method, URI, headers, parameters, body, attributes), so it does not state the cookies the
  builders pass, nor the flag that OPTIONS passes as given and POST and PATCH pass as false.
- Responses.Response.StreamedResponse: the cookies argument of the `StreamedResponse`
  constructor is not stored.
- JdkBinding.ToJdkRequest: the JDK builder's `IllegalArgumentException` for a restricted header
  name such as "Host" is not modelled. Every header is passed on.
- The `OptionsRequestBuilder(uri, Map)` constructor is not modelled. The superclass
  constructor it calls is not part of this model.
- Commons3Binding.ResponseHeadersHoldEveryValue: assumes every response header pair has a
  value. A null value is not followed through `Header.createMap`. The same holds for
  `Commons3Binding.ResponseHeadersAsWritten` and the two lower-case lookup lemmas.
- Null arguments that the model's types exclude: a body array for the POST, PUT and PATCH
  builders (`RequestBuilders.RequestBuilder.WithBodyArray`), where `ByteString.copyFrom(null)`
  throws NullPointerException, and the user agent of `Robots.IsAllowed`, where
  `userAgent.toLowerCase()` throws on null. Neither exception is modelled.
- Auth.BasicAuthScheme.constructor: does not restate the WWW-Authenticate header of the three
  canned responses. `Auth.GetUnauthorizedResponse` states it.
- Auth.BuildAuthHeaderValue: encodes with UTF-8, whereas Java's `getBytes()` uses the
  platform's default charset.
- HttpValues.AtomicCounter.AddAndGet: the counter does not wrap at 32 or 64 bits.
- JettyStats.Size: the size is summed in unbounded integers; the Java `int` sum would wrap
  beyond 2^31 - 1.
- Responses.Response.GetCharset: states only the no-Content-Type case. `Responses.Charset`
  states the rest.
- Responses.Response.constructor: takes the already converted header map rather than running
  `Header.createMap` again.

## Findings

| source | as written | input that shows it | evidently intended | confidence | as-written member | corrected member |
|---|---|---|---|---|---|---|
| src/main/java/org/attribyte/api/http/Request.java:542 | the name is `nv.substring(index)`, which keeps the '=' and the value | query "a=b" stores parameter "=b" | the name is the text before '=' | not executed | Requests.ParseParametersAsWrittenNameBug | Requests.ParseParametersSinglePair |
| src/main/java/org/attribyte/api/http/Request.java:401-421 | the instance getPathComponents skips the first token of the tokenizer | path "/a/b" gives ["b"] | ["a","b"], as the static getPathComponents gives | not executed | Requests.PathComponentsAsWrittenDropsFirst | Requests.InstanceAgreesWithStatic |
| src/main/java/org/attribyte/api/http/impl/commons/Commons3Client.java:251-255 | on the second value of a name, a new list holding only that value replaces the first, and send builds its response from that map | response headers a=1, a=2 give ["2"] | the list holds the first value too | not executed | Commons3Binding.ResponseHeadersAsWritten | Commons3Binding.ResponseHeadersHoldEveryValue |
| src/main/java/org/attribyte/api/http/impl/ning/CompletableCompletionHandler.java:24-27 | the constructor creates a new future and ignores the one passed in | any completed exchange leaves the caller's future pending | the handler completes the caller's future | not executed | NingHandlers.CompletableLeavesCallerPending | NingHandlers.CompletableCompletesCaller |
| src/main/java/org/attribyte/api/http/PutRequestBuilder.java:72 | create passes Request.Method.POST | any PUT builder creates a POST request | Request.Method.PUT | not executed | RequestBuilders.PutCreatesPostAsWritten | RequestBuilders.CreatedMethod |
| src/main/java/org/attribyte/api/http/Header.java:81-90 | the keys of the new map are the input keys as given, although the documentation at line 76 says they are lower-case; `Response.getHeaderValue` looks up only the lower-cased name, so a header added under "Content-Type" is never found | a Commons 3 response with the header "Content-Type: text/html" reports no Content-Type | keys lower-cased, as documented | not executed | Commons3Binding.ContentTypeLostAsWritten | Commons3Binding.ContentTypeFoundWhenKeysLowerCased |
| src/main/java/org/attribyte/api/http/impl/jetty/TimingListener.java:73-77 | onHeader stamps firstHeaderReceivedTick on every header, with no "still unset" test | headers at ticks 5 and 9 give a first-header tick of 9 | only the first header stamps it, as StatsListener.java:84-86 does | not executed | JettyListeners.LastHeaderWinsAsWritten | JettyListeners.FirstHeaderKeptOnce |
