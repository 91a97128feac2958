/**
 * The java.net.http binding: how a Request becomes a JDK HttpRequest (method, body
 * publisher, headers, User-Agent), the URL form encoding of POST parameters with
 * java.net.URLEncoder, and how a JDK HttpResponse becomes a Response.  The transport
 * itself is outside the model: an exchange is given as its outcome.
 */
module JdkBinding {
  import opened Wrappers
  import opened JavaText
  import opened NamedValues
  import opened HttpValues
  import opened Requests
  import opened Responses
  import opened Futures
  import opened HeaderFields

  /** The characters URLEncoder leaves as they are. */
  predicate Unreserved(c: char)
  {
    ('a' <= c <= 'z') || ('A' <= c <= 'Z') || ('0' <= c <= '9') || c == '.' || c == '-' || c == '*' || c == '_'
  }

  /** The characters URLEncoder can produce. */
  predicate FormChar(c: char)
  {
    Unreserved(c) || c == '+' || c == '%'
  }

  /** An upper-case hexadecimal digit. */
  function HexDigit(n: nat): (c: char)
    requires n < 16
    ensures Unreserved(c)
  {
    if n < 10 then ('0' as int + n) as char else ('A' as int + n - 10) as char
  }

  /** Each byte as %XY, upper-case. */
  function Escapes(bytes: seq<byte>): (r: string)
    ensures |r| == 3 * |bytes|
  {
    if |bytes| == 0 then ""
    else ['%', HexDigit(bytes[0] / 16), HexDigit(bytes[0] % 16)] + Escapes(bytes[1..])
  }

  /** URLEncoder on one character: kept, a space as '+', anything else its UTF-8 bytes escaped. */
  function EncodeChar(c: char): (r: string)
    ensures Unreserved(c) ==> r == [c]
    ensures c == ' ' ==> r == "+"
    ensures !Unreserved(c) && c != ' ' ==> r == Escapes(Utf8EncodeChar(c))
  {
    if Unreserved(c) then [c] else if c == ' ' then "+" else Escapes(Utf8EncodeChar(c))
  }

  /** URLEncoder.encode(s, UTF_8). */
  function FormEncode(s: string): (r: string)
    ensures |r| >= |s|
  {
    if |s| == 0 then "" else EncodeChar(s[0]) + FormEncode(s[1..])
  }

  lemma {:induction false} EscapesChars(bytes: seq<byte>)
    ensures forall i :: 0 <= i < |Escapes(bytes)| ==> FormChar(Escapes(bytes)[i])
  {
    if |bytes| > 0 {
      EscapesChars(bytes[1..]);
    }
  }

  /** URLEncoder.encode produces only unreserved characters, '+' and '%': never '&' or '='. */
  lemma {:induction false} FormEncodeChars(s: string)
    ensures forall i :: 0 <= i < |FormEncode(s)| ==> FormChar(FormEncode(s)[i])
    ensures '&' !in FormEncode(s) && '=' !in FormEncode(s)
  {
    if |s| > 0 {
      FormEncodeChars(s[1..]);
      if !Unreserved(s[0]) && s[0] != ' ' {
        EscapesChars(Utf8EncodeChar(s[0]));
      }
      var e := EncodeChar(s[0]);
      assert FormEncode(s) == e + FormEncode(s[1..]);
      assert forall i :: 0 <= i < |e| ==> FormChar(e[i]);
    }
  }

  predicate IsHexDigit(c: char)
  {
    ('0' <= c <= '9') || ('A' <= c <= 'F') || ('a' <= c <= 'f')
  }

  function HexValue(c: char): (n: nat)
    requires IsHexDigit(c)
    ensures n < 16
  {
    if c <= '9' then c as int - '0' as int else if c <= 'F' then c as int - 'A' as int + 10 else c as int - 'a' as int + 10
  }

  lemma HexRoundTrip(b: byte)
    ensures IsHexDigit(HexDigit(b / 16)) && IsHexDigit(HexDigit(b % 16))
    ensures HexValue(HexDigit(b / 16)) * 16 + HexValue(HexDigit(b % 16)) == b
  {
  }

  function Prepend(p: seq<byte>, rest: Option<seq<byte>>): Option<seq<byte>>
  {
    if rest.Some? then Some(p + rest.value) else None
  }

  /**
   * URLDecoder.decode up to the bytes it turns into characters: '+' is a space, %XY the
   * byte XY, any other character its UTF-8 bytes; a '%' without two hex digits is refused.
   */
  function FormDecodeBytes(s: string): (r: Option<seq<byte>>)
    decreases |s|
  {
    if |s| == 0 then Some([])
    else if s[0] == '+' then Prepend([32], FormDecodeBytes(s[1..]))
    else if s[0] == '%' then
      if |s| >= 3 && IsHexDigit(s[1]) && IsHexDigit(s[2])
      then Prepend([HexValue(s[1]) * 16 + HexValue(s[2])], FormDecodeBytes(s[3..]))
      else None
    else Prepend(Utf8EncodeChar(s[0]), FormDecodeBytes(s[1..]))
  }

  /** One %XY escape decodes to its byte. */
  lemma DecodeEscape(b: byte, tail: string)
    ensures FormDecodeBytes(['%', HexDigit(b / 16), HexDigit(b % 16)] + tail) == Prepend([b], FormDecodeBytes(tail))
  {
    var s := ['%', HexDigit(b / 16), HexDigit(b % 16)] + tail;
    HexRoundTrip(b);
    assert s[3..] == tail;
  }

  lemma {:induction false} DecodeEscapes(bytes: seq<byte>, rest: string)
    ensures FormDecodeBytes(Escapes(bytes) + rest) == Prepend(bytes, FormDecodeBytes(rest))
  {
    if |bytes| == 0 {
      assert Escapes(bytes) + rest == rest;
      var d := FormDecodeBytes(rest);
      if d.Some? {
        assert bytes + d.value == d.value;
      }
    } else {
      var b := bytes[0];
      var tail := Escapes(bytes[1..]) + rest;
      var head := ['%', HexDigit(b / 16), HexDigit(b % 16)];
      assert Escapes(bytes) == head + Escapes(bytes[1..]);
      assert Escapes(bytes) + rest == head + tail;
      DecodeEscape(b, tail);
      DecodeEscapes(bytes[1..], rest);
      var d := FormDecodeBytes(rest);
      assert bytes == [b] + bytes[1..];
      if d.Some? {
        assert [b] + (bytes[1..] + d.value) == bytes + d.value;
      }
    }
  }

  lemma DecodeEncodedChar(c: char, rest: string)
    ensures FormDecodeBytes(EncodeChar(c) + rest) == Prepend(Utf8EncodeChar(c), FormDecodeBytes(rest))
  {
    if Unreserved(c) || c == ' ' {
      assert (EncodeChar(c) + rest)[1..] == rest;
    } else {
      DecodeEscapes(Utf8EncodeChar(c), rest);
    }
  }

  /** Decoding undoes URLEncoder.encode: it yields the UTF-8 bytes of the encoded text. */
  lemma {:induction false} FormEncodeRoundTrip(s: string)
    ensures FormDecodeBytes(FormEncode(s)) == Some(Utf8Encode(s))
  {
    if |s| > 0 {
      DecodeEncodedChar(s[0], FormEncode(s[1..]));
      FormEncodeRoundTrip(s[1..]);
    }
  }

  function PairText(f: (string, string)): string
  {
    FormEncode(f.0) + "=" + FormEncode(f.1)
  }

  function Texts(fs: seq<(string, string)>): (r: seq<string>)
    ensures |r| == |fs|
    ensures forall k :: 0 <= k < |r| ==> r[k] == PairText(fs[k])
  {
    seq(|fs|, k requires 0 <= k < |fs| => PairText(fs[k]))
  }

  /** The name=value texts of one parameter, one per value. */
  function ValueTexts(p: Parameter): (r: seq<string>)
    ensures |r| == |p.values|
  {
    seq(|p.values|, i requires 0 <= i < |p.values| => PairText((p.name, p.values[i])))
  }

  /** The name=value texts of the parameters, parameter by parameter. */
  function FormTexts(params: seq<Parameter>): seq<string>
  {
    if |params| == 0 then []
    else FormTexts(params[..|params| - 1]) + ValueTexts(params[|params| - 1])
  }

  lemma TextsAppend(a: seq<(string, string)>, b: seq<(string, string)>)
    ensures Texts(a + b) == Texts(a) + Texts(b)
  {
  }

  lemma ValueTextsArePairTexts(p: Parameter)
    ensures ValueTexts(p) == Texts(ValuePairs(p))
  {
  }

  /** The texts are those of the (name, value) pairs. */
  lemma {:induction false} FormTextsOfFields(params: seq<Parameter>)
    ensures FormTexts(params) == Texts(HeaderPairs(params))
  {
    if |params| > 0 {
      var init := params[..|params| - 1];
      var p := params[|params| - 1];
      FormTextsOfFields(init);
      ValueTextsArePairTexts(p);
      TextsAppend(HeaderPairs(init), ValuePairs(p));
    }
  }

  /** The form body: name=value per parameter value, both URL-encoded, joined by '&'. */
  function FormBody(params: seq<Parameter>): string
  {
    Join("&", FormTexts(params))
  }

  /** One more text: a '&' first unless it is the first. */
  lemma JoinNext(s: string, first: bool, texts: seq<string>, t: string)
    requires s == Join("&", texts) && (first <==> |texts| == 0)
    ensures (if first then s else s + "&") + t == Join("&", texts + [t])
  {
    if |texts| > 0 {
      JoinSnoc("&", texts, t);
    }
  }

  /** The inner loop of encodeFormParameters: every value of one parameter. */
  method AppendValues(s0: string, first0: bool, texts0: seq<string>, p: Parameter)
    returns (s: string, first: bool, texts: seq<string>)
    requires s0 == Join("&", texts0) && (first0 <==> |texts0| == 0)
    ensures texts == texts0 + ValueTexts(p)
    ensures s == Join("&", texts) && (first <==> |texts| == 0)
  {
    s, first, texts := s0, first0, texts0;
    ghost var vt := ValueTexts(p);
    var j := 0;
    while j < |p.values|
      invariant 0 <= j <= |p.values|
      invariant texts == texts0 + vt[..j]
      invariant s == Join("&", texts) && (first <==> |texts| == 0)
    {
      var t := PairText((p.name, p.values[j]));
      assert vt[j] == t;
      JoinNext(s, first, texts, t);
      if !first {
        s := s + "&";
      }
      s := s + (FormEncode(p.name) + "=" + FormEncode(p.values[j]));
      first := false;
      assert vt[..j + 1] == vt[..j] + [t];
      texts := texts + [t];
      j := j + 1;
    }
    assert vt[..j] == vt;
  }

  /** encodeFormParameters: a StringBuilder loop that puts '&' before every pair but the first. */
  method EncodeFormParameters(params: seq<Parameter>) returns (s: string)
    ensures s == FormBody(params)
  {
    s := "";
    var first := true;
    var texts: seq<string> := [];
    var i := 0;
    while i < |params|
      invariant 0 <= i <= |params|
      invariant texts == FormTexts(params[..i])
      invariant s == Join("&", texts) && (first <==> |texts| == 0)
    {
      s, first, texts := AppendValues(s, first, texts, params[i]);
      assert params[..i + 1][..i] == params[..i];
      i := i + 1;
    }
    assert params[..i] == params;
  }

  /** A name=value text splits at its one '=' into the two encodings. */
  lemma SplitPair(f: (string, string))
    ensures Split(PairText(f), '=') == [FormEncode(f.0), FormEncode(f.1)]
  {
    var a := FormEncode(f.0);
    var b := FormEncode(f.1);
    assert Join("=", [a, b]) == Join("=", [a]) + "=" + b;
    FormEncodeChars(f.0);
    FormEncodeChars(f.1);
    SplitJoin([a, b], '=');
  }

  /** No pair text holds a '&'. */
  lemma TextsHaveNoAmpersand(fields: seq<(string, string)>)
    ensures forall k :: 0 <= k < |fields| ==> '&' !in Texts(fields)[k]
  {
    forall k | 0 <= k < |fields| ensures '&' !in Texts(fields)[k] {
      FormEncodeChars(fields[k].0);
      FormEncodeChars(fields[k].1);
    }
  }

  /** The form body is empty exactly when there is no parameter. */
  lemma FormBodyEmpty(params: seq<Parameter>)
    ensures |params| == 0 <==> FormBody(params) == ""
  {
    FormTextsOfFields(params);
    var texts := Texts(HeaderPairs(params));
    if |params| > 0 {
      var last := texts[|texts| - 1];
      assert last[|FormEncode(HeaderPairs(params)[|texts| - 1].0)|] == '=';
      if |texts| > 1 {
        assert Join("&", texts) == Join("&", texts[..|texts| - 1]) + "&" + last;
      }
    }
  }

  /**
   * The form body parses back: empty exactly when there is no parameter, otherwise one
   * '&'-separated piece per parameter value whose two '='-separated halves decode to
   * the UTF-8 bytes of that parameter's name and of the value.
   */
  lemma FormBodyDecodes(params: seq<Parameter>)
    ensures |params| == 0 <==> FormBody(params) == ""
    ensures |params| > 0 ==>
      var fields := HeaderPairs(params);
      var parts := Split(FormBody(params), '&');
      |parts| == |fields| &&
      forall k :: 0 <= k < |parts| ==>
        var nv := Split(parts[k], '=');
        |nv| == 2 && FormDecodeBytes(nv[0]) == Some(Utf8Encode(fields[k].0)) &&
        FormDecodeBytes(nv[1]) == Some(Utf8Encode(fields[k].1))
  {
    FormBodyEmpty(params);
    FormTextsOfFields(params);
    var fields := HeaderPairs(params);
    var texts := Texts(fields);
    if |params| > 0 {
      TextsHaveNoAmpersand(fields);
      SplitJoin(texts, '&');
      assert Split(FormBody(params), '&') == texts;
      forall k | 0 <= k < |texts|
        ensures var nv := Split(texts[k], '=');
          |nv| == 2 && FormDecodeBytes(nv[0]) == Some(Utf8Encode(fields[k].0)) &&
          FormDecodeBytes(nv[1]) == Some(Utf8Encode(fields[k].1))
      {
        SplitPair(fields[k]);
        FormEncodeRoundTrip(fields[k].0);
        FormEncodeRoundTrip(fields[k].1);
      }
    }
  }

  /** The client options the JDK client keeps: whether they are the IMPLEMENTATION_DEFAULT instance, and the User-Agent. */
  datatype ClientOptions = ClientOptions(isImplementationDefault: bool, userAgent: Option<string>)

  datatype BodyPublisher = NoBody | OfString(text: string) | OfByteArray(bytes: seq<byte>)

  /** The HttpRequest built: URI, timeout, method name, body publisher and headers in the order added. */
  datatype JdkRequest = JdkRequest(uri: Uri, timeoutSeconds: Option<int>, methodName: string,
                                   body: BodyPublisher, headers: seq<(string, string)>)

  function MethodName(m: Method): string
  {
    match m
    case HEAD => "HEAD"
    case GET => "GET"
    case POST => "POST"
    case PUT => "PUT"
    case DELETE => "DELETE"
    case PATCH => "PATCH"
    case OPTIONS => "OPTIONS"
  }

  /**
   * The body of toJdkRequest: a POST with parameters sends the form body, otherwise POST,
   * PUT and PATCH send the request body when there is one; the other methods send none.
   */
  function BodyPublisherOf(request: Request, params: seq<Parameter>): (b: BodyPublisher)
    ensures b.OfString? <==> request.requestMethod == POST && |params| > 0
    ensures b.OfString? ==> b.text == FormBody(params)
    ensures b.OfByteArray? <==>
      (request.requestMethod == POST || request.requestMethod == PUT || request.requestMethod == PATCH) &&
      request.body.Some? && !(request.requestMethod == POST && |params| > 0)
    ensures b.OfByteArray? ==> b.bytes == request.body.value
  {
    match request.requestMethod
    case POST =>
      if |params| > 0 then OfString(FormBody(params))
      else if request.body.Some? then OfByteArray(request.body.value) else NoBody
    case PUT => if request.body.Some? then OfByteArray(request.body.value) else NoBody
    case PATCH => if request.body.Some? then OfByteArray(request.body.value) else NoBody
    case _ => NoBody
  }

  /** The configured User-Agent is added: real options with one, and no User-Agent on the request. */
  predicate AddsUserAgent(clientOptions: Option<ClientOptions>, request: Request)
  {
    clientOptions.Some? && !clientOptions.value.isImplementationDefault && clientOptions.value.userAgent.Some? &&
    GetHeaderValue(request, "User-Agent").None?
  }

  const FORM_CONTENT_TYPE: (string, string) := ("Content-Type", "application/x-www-form-urlencoded")

  /** The method switch of toJdkRequest: the body publisher, and the form Content-Type with a form body. */
  method PublishBody(request: Request, params: seq<Parameter>) returns (body: BodyPublisher, added: seq<(string, string)>)
    ensures body == BodyPublisherOf(request, params)
    ensures added == if body.OfString? then [FORM_CONTENT_TYPE] else []
  {
    body := NoBody;
    added := [];
    match request.requestMethod {
      case POST =>
        if |params| > 0 {
          var formBody := EncodeFormParameters(params);
          body := OfString(formBody);
          added := [FORM_CONTENT_TYPE];
        } else if request.body.Some? {
          body := OfByteArray(request.body.value);
        }
      case PUT =>
        if request.body.Some? {
          body := OfByteArray(request.body.value);
        }
      case PATCH =>
        if request.body.Some? {
          body := OfByteArray(request.body.value);
        }
      case _ =>
    }
  }

  /**
   * toJdkRequest, with the request's parameter and header maps iterated in the given
   * key orders.  The form Content-Type is added in the method switch, before the
   * request's own headers; the User-Agent after them.
   */
  method ToJdkRequest(request: Request, parameterOrder: seq<string>, headerOrder: seq<string>,
                      options: RequestOptions, clientOptions: Option<ClientOptions>) returns (r: JdkRequest)
    requires IsKeyOrder(request.parameters, parameterOrder)
    requires IsKeyOrder(request.headers, headerOrder)
    ensures r.uri == request.uri && r.methodName == MethodName(request.requestMethod)
    ensures r.timeoutSeconds == if options.timeoutSeconds > 0 then Some(options.timeoutSeconds) else None
    ensures r.body == BodyPublisherOf(request, ValuesInOrder(request.parameters, parameterOrder))
    ensures r.headers ==
      (if r.body.OfString? then [FORM_CONTENT_TYPE] else []) +
      HeaderPairs(ValuesInOrder(request.headers, headerOrder)) +
      (if AddsUserAgent(clientOptions, request) then [("User-Agent", clientOptions.value.userAgent.value)] else [])
  {
    var timeout: Option<int> := None;
    if options.timeoutSeconds > 0 {
      timeout := Some(options.timeoutSeconds);
    }
    var body, added := PublishBody(request, ValuesInOrder(request.parameters, parameterOrder));
    var headers := AppendPairs(added, ValuesInOrder(request.headers, headerOrder));
    if clientOptions.Some? && !clientOptions.value.isImplementationDefault && clientOptions.value.userAgent.Some? &&
       GetHeaderValue(request, "User-Agent").None? {
      headers := headers + [("User-Agent", clientOptions.value.userAgent.value)];
    }
    r := JdkRequest(request.uri, timeout, MethodName(request.requestMethod), body, headers);
  }

  /** A JDK HttpResponse with a byte[] body handler: status, header map entries and body (possibly null). */
  datatype JdkResponse = JdkResponse(statusCode: int, headers: seq<HeaderEntry>, body: Option<seq<byte>>)

  /** toResponse: status, every header value, and the body only when it is non-null and not empty. */
  method ToResponse(response: JdkResponse) returns (r: Response)
    ensures fresh(r)
    ensures r.statusCode == response.statusCode && r.headers == AddedFields(map[], EntryFields(response.headers))
    ensures r.body == Held(if response.body.Some? && |response.body.value| > 0 then response.body else None)
    ensures r.attributes.None? && r.stats.None? && r.timing.None?
  {
    var builder := new ResponseBuilder();
    builder.SetStatusCode(response.statusCode);
    AddEntries(builder, response.headers);
    if response.body.Some? && |response.body.value| > 0 {
      var bytes := response.body.value;
      var body := new byte[|bytes|](i requires 0 <= i < |bytes| => bytes[i]);
      assert body[..] == bytes;
      builder.SetBody(body);
    }
    r := builder.Create();
  }

  /** The completion of asyncSend: the converted response, or the exchange's failure, goes to the future. */
  method CompleteAsyncSend(exchange: Result<JdkResponse>, fut: ResponseFuture)
    modifies fut
    ensures exchange.Failure? ==>
      fut.outcome == if old(fut.outcome).Pending? then Failed(exchange.error) else old(fut.outcome)
    ensures exchange.Success? && old(fut.outcome).Pending? ==>
      fut.outcome.Completed? && fut.outcome.response.statusCode == exchange.value.statusCode &&
      fut.outcome.response.headers == AddedFields(map[], EntryFields(exchange.value.headers))
    ensures exchange.Success? && !old(fut.outcome).Pending? ==> fut.outcome == old(fut.outcome)
  {
    if exchange.Success? {
      var r := ToResponse(exchange.value);
      var _ := fut.Set(r);
    } else {
      var _ := fut.SetException(exchange.error);
    }
  }
}
