/**
 * The HTTP response, its streamed variant, and the builder the clients and listeners
 * fill in.  A response's headers and attributes change in place; its status and body
 * are fixed at construction.  Stats and timing travel with the response as in the
 * revision the listeners are written against.
 */
module Responses {
  import opened Wrappers
  import opened JavaText
  import opened NamedValues
  import opened HttpValues

  /** Response.Code.isOK: the 2xx status codes. */
  function IsOK(code: int): (ok: bool)
    ensures ok <==> 200 <= code <= 299
  {
    code > 199 && code < 300
  }

  /** Response.Code's named status codes. */
  const OK: int := 200
  const ACCEPTED: int := 202
  const NO_CONTENT: int := 204
  const BAD_REQUEST: int := 400
  const UNAUTHORIZED: int := 401
  const FORBIDDEN: int := 403
  const NOT_FOUND: int := 404
  const SERVER_ERROR: int := 500
  const SERVER_UNAVAILABLE: int := 503

  lemma CodeConstants()
    ensures IsOK(OK) && IsOK(ACCEPTED) && IsOK(NO_CONTENT)
    ensures !IsOK(199) && !IsOK(300) && !IsOK(BAD_REQUEST) && !IsOK(UNAUTHORIZED) && !IsOK(SERVER_ERROR)
  {
  }

  /** Guava's ByteSource: bytes read afresh on every call, or an IOException. */
  class ByteSource {
    const contents: seq<byte>
    const failure: Option<string>
    var readCount: nat

    constructor (contents: seq<byte>, failure: Option<string>)
      ensures this.contents == contents && this.failure == failure && readCount == 0
    {
      this.contents := contents;
      this.failure := failure;
      readCount := 0;
    }

    method Read() returns (r: Result<seq<byte>>)
      modifies this
      ensures readCount == old(readCount) + 1
      ensures failure.None? ==> r == Success(contents)
      ensures failure.Some? ==> r == Failure(IOException(failure.value))
    {
      readCount := readCount + 1;
      if failure.Some? {
        return Failure(IOException(failure.value));
      }
      return Success(contents);
    }
  }

  /** A response body: bytes held by the response, or a source read on demand (StreamedResponse). */
  datatype Body = Held(bytes: Option<seq<byte>>) | Streamed(source: Option<ByteSource>)

  /** The value getHeaderValues finds: lookup under the lower-cased name only. */
  function LowerCaseLookup(headers: map<string, Header>, name: string): (h: Option<Header>)
    ensures h.Some? <==> ToLower(name) in headers
    ensures h.Some? ==> h.value == headers[ToLower(name)]
  {
    if ToLower(name) in headers then Some(headers[ToLower(name)]) else None
  }

  /**
   * Response.getCharset(contentType, default): everything after the first "charset=",
   * untrimmed, or the default when there is no Content-Type or no "charset=".
   */
  function Charset(contentType: Option<string>, defaultCharset: string): (cs: string)
    ensures contentType.None? ==> cs == defaultCharset
    ensures contentType.Some? && (forall i :: !OccursAt(contentType.value, "charset=", i)) ==> cs == defaultCharset
    ensures contentType.Some? && (exists i :: OccursAt(contentType.value, "charset=", i)) ==>
      exists i :: OccursAt(contentType.value, "charset=", i) &&
        (forall j :: 0 <= j < i ==> !OccursAt(contentType.value, "charset=", j)) &&
        cs == contentType.value[i + 8..]
  {
    if contentType.None? then defaultCharset
    else
      var index := IndexOfString(contentType.value, "charset=");
      if index != -1 then contentType.value[index + 8..] else defaultCharset
  }

  /** A Content-Type whose only 'c' opens "charset=" yields exactly the text after it. */
  lemma CharsetAfterParameter(mediaType: string, charset: string, defaultCharset: string)
    requires 'c' !in mediaType
    ensures Charset(Some(mediaType + "charset=" + charset), defaultCharset) == charset
  {
    var ct := mediaType + "charset=" + charset;
    assert OccursAt(ct, "charset=", |mediaType|) by {
      assert ct[|mediaType|..|mediaType| + 8] == "charset=";
    }
    forall j | 0 <= j < |mediaType|
      ensures !OccursAt(ct, "charset=", j)
    {
      assert ct[j] == mediaType[j];
      if j + 8 <= |ct| {
        assert ct[j..j + 8][0] == ct[j];
      }
    }
    var index := IndexOfString(ct, "charset=");
    assert index == |mediaType|;
    assert ct[index + 8..] == charset;
  }

  class Response {
    const statusCode: int
    const body: Body
    const stats: Option<Stats>
    const timing: Option<Timing>
    var headers: map<string, Header>
    var attributes: Option<map<string, Attr>>

    /** The constructor the builder uses: the header map is copied and the body held as given. */
    constructor (statusCode: int, headers: map<string, Header>, body: Option<seq<byte>>,
                 attributes: Option<map<string, Attr>>, stats: Option<Stats>, timing: Option<Timing>)
      ensures this.statusCode == statusCode && this.headers == headers && this.body == Held(body)
      ensures this.attributes == attributes && this.stats == stats && this.timing == timing
    {
      this.statusCode := statusCode;
      this.headers := headers;
      this.body := Held(body);
      this.attributes := attributes;
      this.stats := stats;
      this.timing := timing;
    }

    /** StreamedResponse: the byte source is stored, not read, and there are no stats. */
    constructor StreamedResponse(statusCode: int, headers: map<string, Header>, source: Option<ByteSource>,
                                 attributes: Option<map<string, Attr>>)
      ensures this.statusCode == statusCode && this.headers == headers && this.body == Streamed(source)
      ensures this.attributes == attributes && this.stats.None? && this.timing.None?
      ensures source.Some? ==> source.value.readCount == old(source.value.readCount)
    {
      this.statusCode := statusCode;
      this.headers := headers;
      this.body := Streamed(source);
      this.attributes := attributes;
      this.stats := None;
      this.timing := None;
    }

    /** getBody: the held bytes, or a fresh read of the byte source (null without one). */
    method GetBody() returns (r: Result<Option<seq<byte>>>)
      modifies if body.Streamed? && body.source.Some? then {body.source.value} else {}
      ensures body.Held? ==> r == Success(body.bytes)
      ensures body.Streamed? && body.source.None? ==> r == Success(None)
      ensures body.Streamed? && body.source.Some? ==>
        body.source.value.readCount == old(body.source.value.readCount) + 1 &&
        (body.source.value.failure.None? ==> r == Success(Some(body.source.value.contents))) &&
        (body.source.value.failure.Some? ==> r.Failure? && r.error.IOException?)
    {
      if body.Held? {
        return Success(body.bytes);
      }
      if body.source.None? {
        return Success(None);
      }
      var read := body.source.value.Read();
      if read.Failure? {
        return Failure(read.error);
      }
      return Success(Some(read.value));
    }

    /** StreamedResponse.getBodySource: the stored source, unread. */
    function GetBodySource(): (s: Option<ByteSource>)
      requires body.Streamed?
      ensures s == body.source
    {
      body.source
    }

    /** setHeader: a single-valued header under the lower-cased name, replacing any entry. */
    method SetHeader(name: string, value: Option<string>)
      modifies this
      ensures headers == old(headers)[ToLower(name) := FromValue(name, value)]
      ensures attributes == old(attributes)
      ensures GetHeaderValue(name) == Some(if value.Some? then value.value else "")
      ensures GetHeaderValues(name) == Some([if value.Some? then value.value else ""])
    {
      headers := headers[ToLower(name) := FromValue(name, value)];
    }

    /** getHeaderValue: the first value under the lower-cased name, or null. */
    function GetHeaderValue(name: string): (v: Option<string>)
      reads this
      ensures v.Some? <==> ToLower(name) in headers
      ensures v.Some? ==> v.value == headers[ToLower(name)].values[0]
    {
      var h := LowerCaseLookup(headers, name);
      if h.Some? then Some(GetValue(h.value)) else None
    }

    /** getHeaderValues: every value under the lower-cased name, or null. */
    function GetHeaderValues(name: string): (v: Option<seq<string>>)
      reads this
      ensures v.Some? <==> ToLower(name) in headers
      ensures v.Some? ==> v.value == headers[ToLower(name)].values
    {
      var h := LowerCaseLookup(headers, name);
      if h.Some? then Some(h.value.values) else None
    }

    function GetContentType(): Option<string>
      reads this
    {
      GetHeaderValue("Content-Type")
    }

    /** getCharset(default): the charset of this response's Content-Type. */
    function GetCharset(defaultCharset: string): (cs: string)
      reads this
      ensures ToLower("Content-Type") !in headers ==> cs == defaultCharset
    {
      Charset(GetContentType(), defaultCharset)
    }

    /** setAttribute: creates the map on first use, then puts or replaces. */
    method SetAttribute(name: string, value: Attr)
      modifies this
      ensures attributes == Some((if old(attributes).Some? then old(attributes).value else map[])[name := value])
      ensures headers == old(headers)
      ensures GetAttribute(name) == Some(value)
    {
      var current := if attributes.Some? then attributes.value else map[];
      attributes := Some(current[name := value]);
    }

    /** getAttribute: null before any attribute is set or for an unknown name. */
    function GetAttribute(name: string): (v: Option<Attr>)
      reads this
      ensures attributes.None? ==> v.None?
      ensures attributes.Some? ==> (v.Some? <==> name in attributes.value)
      ensures v.Some? ==> attributes.Some? && v.value == attributes.value[name]
    {
      if attributes.None? || name !in attributes.value then None else Some(attributes.value[name])
    }
  }

  /**
   * ResponseBuilder: a mutable status, header map, lazily created attribute map and a
   * body array held by reference until create copies it.
   */
  class ResponseBuilder {
    var statusCode: int
    var headers: map<string, Header>
    var attributes: Option<map<string, Attr>>
    var body: array?<byte>
    var stats: Option<Stats>
    var timing: Option<Timing>

    /** ResponseBuilder(): status 0, no headers, attributes or body. */
    constructor ()
      ensures statusCode == 0 && headers == map[] && attributes.None? && body == null
      ensures stats.None? && timing.None?
    {
      statusCode := 0;
      headers := map[];
      attributes := None;
      body := null;
      stats := None;
      timing := None;
    }

    /** ResponseBuilder(statusCode): a builder with a status code and nothing else. */
    constructor WithStatus(statusCode: int)
      ensures this.statusCode == statusCode && body == null
      ensures headers == map[] && attributes.None? && stats.None? && timing.None?
    {
      this.statusCode := statusCode;
      headers := map[];
      attributes := None;
      body := null;
      stats := None;
      timing := None;
    }

    /** ResponseBuilder(statusCode, byte[]): the array itself is kept, not a copy. */
    constructor WithBody(statusCode: int, body: array?<byte>)
      ensures this.statusCode == statusCode && this.body == body
      ensures headers == map[] && attributes.None? && stats.None? && timing.None?
    {
      this.statusCode := statusCode;
      this.body := body;
      headers := map[];
      attributes := None;
      stats := None;
      timing := None;
    }

    /** ResponseBuilder(statusCode, String): the UTF-8 bytes of the text. */
    constructor WithText(statusCode: int, text: string)
      ensures this.statusCode == statusCode && body != null && body[..] == Utf8Encode(text)
      ensures headers == map[] && attributes.None? && stats.None? && timing.None?
    {
      this.statusCode := statusCode;
      var encoded := Utf8Encode(text);
      body := new byte[|encoded|](i requires 0 <= i < |encoded| => encoded[i]);
      headers := map[];
      attributes := None;
      stats := None;
      timing := None;
    }

    method SetStatusCode(code: int)
      modifies this
      ensures statusCode == code
      ensures headers == old(headers) && attributes == old(attributes) && body == old(body)
      ensures stats == old(stats) && timing == old(timing)
    {
      statusCode := code;
    }

    /** setBody(byte[]): keeps the caller's array, so its later changes reach create. */
    method SetBody(newBody: array?<byte>)
      modifies this
      ensures body == newBody
      ensures statusCode == old(statusCode) && headers == old(headers) && attributes == old(attributes)
      ensures stats == old(stats) && timing == old(timing)
    {
      body := newBody;
    }

    /** setBody(String): a fresh array of the text's UTF-8 bytes. */
    method SetBodyText(text: string)
      modifies this
      ensures fresh(body) && body[..] == Utf8Encode(text)
      ensures statusCode == old(statusCode) && headers == old(headers) && attributes == old(attributes)
      ensures stats == old(stats) && timing == old(timing)
    {
      var encoded := Utf8Encode(text);
      body := new byte[|encoded|](i requires 0 <= i < |encoded| => encoded[i]);
    }

    /** The statistics the StatsListener-based listeners attach. */
    method SetStats(s: Stats)
      modifies this
      ensures stats == Some(s)
      ensures statusCode == old(statusCode) && headers == old(headers) && attributes == old(attributes)
      ensures body == old(body) && timing == old(timing)
    {
      stats := Some(s);
    }

    /** The timing TimingListener attaches. */
    method SetTiming(t: Timing)
      modifies this
      ensures timing == Some(t)
      ensures statusCode == old(statusCode) && headers == old(headers) && attributes == old(attributes)
      ensures body == old(body) && stats == old(stats)
    {
      timing := Some(t);
    }

    /** addHeader: keyed by the lower-cased name, appending to an existing header. */
    method AddHeader(name: string, value: Option<string>)
      modifies this
      ensures headers == AddedHeader(old(headers), name, value)
      ensures statusCode == old(statusCode) && attributes == old(attributes) && body == old(body)
      ensures stats == old(stats) && timing == old(timing)
    {
      var lcName := ToLower(name);
      if lcName !in headers {
        headers := headers[lcName := FromValue(name, value)];
      } else {
        headers := headers[lcName := AddValue(headers[lcName], value)];
      }
    }

    /** addHeaders(Collection): each header under its own name, replacing; null is ignored. */
    method AddHeaderList(list: Option<seq<Header>>)
      modifies this
      ensures list.None? ==> headers == old(headers)
      ensures list.Some? ==> headers == PutByName(old(headers), list.value)
      ensures statusCode == old(statusCode) && attributes == old(attributes) && body == old(body)
      ensures stats == old(stats) && timing == old(timing)
    {
      if list.None? {
        return;
      }
      var hs := list.value;
      var i := 0;
      while i < |hs|
        invariant 0 <= i <= |hs|
        invariant headers == PutByName(old(headers), hs[..i])
        invariant statusCode == old(statusCode) && attributes == old(attributes) && body == old(body)
        invariant stats == old(stats) && timing == old(timing)
      {
        assert hs[..i + 1][..i] == hs[..i];
        headers := headers[hs[i].name := hs[i]];
        i := i + 1;
      }
      assert hs[..i] == hs;
    }

    /** addHeaders(Map): merges Header.createMap; a null element throws before anything is merged. */
    method AddHeaderMap(input: Option<map<string, InputValue>>) returns (thrown: Option<Throwable>)
      modifies this
      ensures input.None? ==> thrown.None? && headers == old(headers)
      ensures input.Some? && AnyNullElement(input.value) ==>
        thrown == Some(NullPointerException) && headers == old(headers)
      ensures input.Some? && !AnyNullElement(input.value) ==>
        thrown.None? && headers == old(headers) + ConvertedMap(input.value)
      ensures statusCode == old(statusCode) && attributes == old(attributes) && body == old(body)
      ensures stats == old(stats) && timing == old(timing)
    {
      thrown := None;
      if input.Some? {
        var created := CreateMap(input);
        if created.Failure? {
          thrown := Some(created.error);
        } else {
          headers := headers + created.value;
        }
      }
    }

    /** addAttribute: creates the map on first use, then puts or replaces. */
    method AddAttribute(name: string, value: Attr)
      modifies this
      ensures attributes == Some((if old(attributes).Some? then old(attributes).value else map[])[name := value])
      ensures statusCode == old(statusCode) && headers == old(headers) && body == old(body)
      ensures stats == old(stats) && timing == old(timing)
    {
      var current := if attributes.Some? then attributes.value else map[];
      attributes := Some(current[name := value]);
    }

    /**
     * addAttributes: merges into the attribute map.  The map is only created by
     * addAttribute, so a non-null argument before that dereferences null.
     */
    method AddAttributes(more: Option<map<string, Attr>>) returns (thrown: Option<Throwable>)
      modifies this
      ensures more.None? ==> thrown.None? && attributes == old(attributes)
      ensures more.Some? && old(attributes).None? ==> thrown == Some(NullPointerException) && attributes.None?
      ensures more.Some? && old(attributes).Some? ==> thrown.None? && attributes == Some(old(attributes).value + more.value)
      ensures statusCode == old(statusCode) && headers == old(headers) && body == old(body)
      ensures stats == old(stats) && timing == old(timing)
    {
      thrown := None;
      if more.Some? {
        if attributes.None? {
          thrown := Some(NullPointerException);
        } else {
          attributes := Some(attributes.value + more.value);
        }
      }
    }

    /** create: a response holding the current status, headers, attributes and a copy of the body array. */
    method Create() returns (r: Response)
      ensures fresh(r)
      ensures r.statusCode == statusCode && r.headers == headers && r.attributes == attributes
      ensures r.body == Held(if body == null then None else Some(body[..]))
      ensures r.stats == stats && r.timing == timing
    {
      var copied: Option<seq<byte>> := None;
      if body != null {
        copied := Some(body[..]);
      }
      r := new Response(statusCode, headers, copied, attributes, stats, timing);
    }
  }

  /**
   * A header added through a builder is what the response's lookup returns for the
   * same name in any letter case: the earlier values followed by the new one.
   */
  lemma AddedHeaderLookup(headers: map<string, Header>, name: string, other: string, value: Option<string>)
    requires ToLower(other) == ToLower(name)
    ensures var h := LowerCaseLookup(AddedHeader(headers, name, value), other);
      h.Some? &&
      h.value.values == (if ToLower(name) in headers then headers[ToLower(name)].values else []) + [value.GetOr("")]
  {
  }
}
