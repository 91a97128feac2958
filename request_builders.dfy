/**
 * The request builders: one mutable scratch object per request kind, whose header,
 * attribute and parameter maps are updated in place and snapshotted by Create.
 * The builder kind stands for the concrete subclass.
 */
module RequestBuilders {
  import opened Wrappers
  import opened JavaText
  import opened NamedValues
  import opened HttpValues
  import opened Requests

  /** HeadRequestBuilder, OptionsRequestBuilder, FormPostRequestBuilder, Post-, Put- and PatchRequestBuilder. */
  datatype BuilderKind = HeadBuilder | OptionsBuilder | FormPostBuilder | PostBuilder | PutBuilder | PatchBuilder

  /** The kinds that extend RequestBuilderWithParameters. */
  predicate HasParameters(kind: BuilderKind)
  {
    kind.HeadBuilder? || kind.OptionsBuilder? || kind.FormPostBuilder?
  }

  /** The kinds that carry a body. */
  predicate HasBody(kind: BuilderKind)
  {
    kind.PostBuilder? || kind.PutBuilder? || kind.PatchBuilder?
  }

  /** The method each create() uses as written: PutRequestBuilder passes POST. */
  function CreatedMethodAsWritten(kind: BuilderKind): Method
  {
    match kind
    case HeadBuilder => HEAD
    case OptionsBuilder => OPTIONS
    case FormPostBuilder => POST
    case PostBuilder => POST
    case PutBuilder => POST
    case PatchBuilder => PATCH
  }

  /** As written, a PUT builder creates a POST request. */
  lemma PutCreatesPostAsWritten()
    ensures CreatedMethodAsWritten(PutBuilder) == POST
    ensures CreatedMethodAsWritten(PutBuilder) != CreatedMethodAsWritten(PatchBuilder)
  {
  }

  /** The method each create() is meant to use: the one the builder is named after. */
  function CreatedMethod(kind: BuilderKind): (m: Method)
    ensures kind.PutBuilder? ==> m == PUT
    ensures !kind.PutBuilder? ==> m == CreatedMethodAsWritten(kind)
    ensures m == POST <==> kind.FormPostBuilder? || kind.PostBuilder?
  {
    if kind.PutBuilder? then PUT else CreatedMethodAsWritten(kind)
  }

  /** The parameter key addParameter and setParameter use: lower-cased when the flag is set, as written. */
  function ParameterKey(name: string, caseSensitiveParameters: bool): string
  {
    if caseSensitiveParameters then ToLower(name) else name
  }

  class RequestBuilder {
    const kind: BuilderKind
    const uri: Uri
    const caseSensitiveParameters: bool
    const body: Option<seq<byte>>
    var headers: map<string, Header>
    var attributes: map<string, Attr>
    var parameters: map<string, Parameter>

    /**
     * HeadRequestBuilder(uri, caseSensitiveParameters) and OptionsRequestBuilder(uri,
     * caseSensitiveParameters): the query string, when there is one, seeds the parameters.
     * The one-argument forms pass true.  With asWritten the query is parsed by
     * Request.parseParameters as written, which is what the builders call; without it,
     * by the corrected parse.
     */
    constructor WithQuery(kind: BuilderKind, uri: Uri, caseSensitiveParameters: bool, asWritten: bool)
      requires kind.HeadBuilder? || kind.OptionsBuilder?
      ensures this.kind == kind && this.uri == uri && this.caseSensitiveParameters == caseSensitiveParameters
      ensures body.None? && headers == map[] && attributes == map[]
      ensures uri.query.None? ==> parameters == map[]
      ensures uri.query.Some? && asWritten ==> parameters == ParseParametersAsWritten(uri.query, caseSensitiveParameters)
      ensures uri.query.Some? && !asWritten ==> parameters == ParsedParameters(uri.query, caseSensitiveParameters)
    {
      this.kind := kind;
      this.uri := uri;
      this.caseSensitiveParameters := caseSensitiveParameters;
      body := None;
      headers := map[];
      attributes := map[];
      var parsed := map[];
      if uri.query.Some? {
        parsed := ParseParameters(uri.query, caseSensitiveParameters, asWritten);
      }
      parameters := map[] + parsed;
      assert map[] + parsed == parsed;
    }

    /** FormPostRequestBuilder(uri): case flag true, the query string is not parsed. */
    constructor FormPost(uri: Uri)
      ensures kind == FormPostBuilder && this.uri == uri && caseSensitiveParameters
      ensures body.None? && headers == map[] && attributes == map[] && parameters == map[]
    {
      kind := FormPostBuilder;
      this.uri := uri;
      caseSensitiveParameters := true;
      body := None;
      headers := map[];
      attributes := map[];
      parameters := map[];
    }

    /** The byte[] constructors of the body builders: the body is a copy of the array's contents. */
    constructor WithBodyArray(kind: BuilderKind, uri: Uri, content: array<byte>)
      requires HasBody(kind)
      ensures this.kind == kind && this.uri == uri && !caseSensitiveParameters
      ensures body == Some(content[..])
      ensures headers == map[] && attributes == map[] && parameters == map[]
    {
      this.kind := kind;
      this.uri := uri;
      caseSensitiveParameters := false;
      var copied := CopyBytes(content);
      body := Some(copied);
      headers := map[];
      attributes := map[];
      parameters := map[];
    }

    /** The ByteString constructors of the body builders: the (immutable) body is stored as given. */
    constructor WithByteString(kind: BuilderKind, uri: Uri, content: Option<seq<byte>>)
      requires HasBody(kind)
      ensures this.kind == kind && this.uri == uri && !caseSensitiveParameters
      ensures body == content
      ensures headers == map[] && attributes == map[] && parameters == map[]
    {
      this.kind := kind;
      this.uri := uri;
      caseSensitiveParameters := false;
      body := content;
      headers := map[];
      attributes := map[];
      parameters := map[];
    }

    /** RequestBuilder.addHeader. */
    method AddHeader(name: string, value: Option<string>)
      modifies this
      ensures headers == AddedHeader(old(headers), name, value)
      ensures attributes == old(attributes) && parameters == old(parameters)
    {
      var lcName := ToLower(name);
      if lcName !in headers {
        headers := headers[lcName := FromValue(name, value)];
      } else {
        headers := headers[lcName := AddValue(headers[lcName], value)];
      }
    }

    /** RequestBuilder.addHeaders(Collection): each header under its own name, replacing; null is ignored. */
    method AddHeaderList(list: Option<seq<Header>>)
      modifies this
      ensures list.None? ==> headers == old(headers)
      ensures list.Some? ==> headers == PutByName(old(headers), list.value)
      ensures attributes == old(attributes) && parameters == old(parameters)
    {
      if list.None? {
        return;
      }
      var hs := list.value;
      var i := 0;
      while i < |hs|
        invariant 0 <= i <= |hs|
        invariant headers == PutByName(old(headers), hs[..i])
        invariant attributes == old(attributes) && parameters == old(parameters)
      {
        assert hs[..i + 1][..i] == hs[..i];
        headers := headers[hs[i].name := hs[i]];
        i := i + 1;
      }
      assert hs[..i] == hs;
    }

    /**
     * RequestBuilder.addHeaders(Map): merges Header.createMap, replacing equal keys; null is
     * ignored, and a null element makes createMap throw before anything is merged.
     */
    method AddHeaderMap(input: Option<map<string, InputValue>>) returns (thrown: Option<Throwable>)
      modifies this
      ensures input.None? ==> thrown.None? && headers == old(headers)
      ensures input.Some? && AnyNullElement(input.value) ==>
        thrown == Some(NullPointerException) && headers == old(headers)
      ensures input.Some? && !AnyNullElement(input.value) ==>
        thrown.None? && headers == old(headers) + ConvertedMap(input.value)
      ensures attributes == old(attributes) && parameters == old(parameters)
    {
      thrown := None;
      if input.Some? {
        var created := CreateMap(input);
        if created.Failure? {
          thrown := Some(created.error);
        } else {
          headers := headers + created.value;
        }
      }
    }

    /** RequestBuilder.addAttribute: puts or replaces one entry. */
    method AddAttribute(name: string, value: Attr)
      modifies this
      ensures attributes == old(attributes)[name := value]
      ensures headers == old(headers) && parameters == old(parameters)
    {
      attributes := attributes[name := value];
    }

    /** RequestBuilder.addAttributes: merges a map, its entries winning; null is ignored. */
    method AddAttributes(more: Option<map<string, Attr>>)
      modifies this
      ensures more.None? ==> attributes == old(attributes)
      ensures more.Some? ==> attributes == old(attributes) + more.value
      ensures headers == old(headers) && parameters == old(parameters)
    {
      if more.Some? {
        attributes := attributes + more.value;
      }
    }

    /** RequestBuilderWithParameters.addParameter: appends under the key the flag selects. */
    method AddParameter(name: string, value: Option<string>)
      requires HasParameters(kind)
      modifies this
      ensures var key := ParameterKey(name, caseSensitiveParameters);
        parameters == old(parameters)[key := if key in old(parameters)
                                             then AddValue(old(parameters)[key], value)
                                             else FromValue(name, value)]
      ensures headers == old(headers) && attributes == old(attributes)
    {
      var lcName := if caseSensitiveParameters then ToLower(name) else name;
      if lcName !in parameters {
        parameters := parameters[lcName := FromValue(name, value)];
      } else {
        parameters := parameters[lcName := AddValue(parameters[lcName], value)];
      }
    }

    /** RequestBuilderWithParameters.setParameter: replaces the entry under the same key rule. */
    method SetParameter(name: string, values: Option<seq<Option<string>>>)
      requires HasParameters(kind)
      modifies this
      ensures parameters == old(parameters)[ParameterKey(name, caseSensitiveParameters) := FromValues(name, values)]
      ensures headers == old(headers) && attributes == old(attributes)
    {
      var lcName := if caseSensitiveParameters then ToLower(name) else name;
      parameters := parameters[lcName := FromValues(name, values)];
    }

    /** RequestBuilderWithParameters.addParameters: merges Parameter.createMap with keys as given. */
    method AddParameters(input: Option<map<string, InputValue>>) returns (thrown: Option<Throwable>)
      requires HasParameters(kind)
      modifies this
      ensures input.None? ==> thrown.None? && parameters == old(parameters)
      ensures input.Some? && AnyNullElement(input.value) ==>
        thrown == Some(NullPointerException) && parameters == old(parameters)
      ensures input.Some? && !AnyNullElement(input.value) ==>
        thrown.None? && parameters == old(parameters) + ConvertedMap(input.value)
      ensures headers == old(headers) && attributes == old(attributes)
    {
      thrown := None;
      if input.Some? {
        var created := CreateMap(input);
        if created.Failure? {
          thrown := Some(created.error);
        } else {
          parameters := parameters + created.value;
        }
      }
    }

    /**
     * create(): a request of the builder's method holding copies of the current maps.
     * Only the builders with parameters pass them, only the body builders pass a body.
     * With asWritten the method is the one each create() passes (POST for the PUT
     * builder); without it, the corrected one.
     */
    method Create(asWritten: bool) returns (r: Request)
      ensures asWritten ==> r.requestMethod == CreatedMethodAsWritten(kind)
      ensures !asWritten ==> r.requestMethod == CreatedMethod(kind)
      ensures r.uri == uri
      ensures r.headers == headers && r.attributes == attributes
      ensures HasParameters(kind) ==> r.parameters == parameters && r.body.None?
      ensures HasBody(kind) ==> r.parameters == map[] && r.body == body
    {
      var requestMethod := if asWritten then CreatedMethodAsWritten(kind) else CreatedMethod(kind);
      if HasParameters(kind) {
        r := NewRequest(requestMethod, uri, Some(headers), Some(parameters), None, Some(attributes));
      } else {
        r := NewRequest(requestMethod, uri, Some(headers), None, body, Some(attributes));
      }
    }
  }

  /** ByteString.copyFrom(byte[]): the array's contents at the time of the call. */
  method CopyBytes(a: array<byte>) returns (s: seq<byte>)
    ensures s == a[..]
  {
    s := [];
    var i := 0;
    while i < a.Length
      invariant 0 <= i <= a.Length
      invariant s == a[..i]
    {
      s := s + [a[i]];
      i := i + 1;
    }
  }

  /**
   * A header added through the builder is found again by the created request's lookup,
   * under the name it was added with, with the added value last.
   */
  lemma AddedHeaderIsFound(headers: map<string, Header>, name: string, value: Option<string>, r: Request)
    requires r.headers == AddedHeader(headers, name, value)
    requires name == ToLower(name) || name !in headers
    ensures GetHeader(r, name).Some?
    ensures var vs := GetHeaderValues(r, name).value;
      vs[|vs| - 1] == value.GetOr("") &&
      vs[..|vs| - 1] == (if ToLower(name) in headers then headers[ToLower(name)].values else [])
  {
    var key := ToLower(name);
    assert key in r.headers;
    if name != key {
      assert name !in r.headers;
    }
    if key !in headers {
      assert r.headers[key].values == [value.GetOr("")];
    }
  }

  /** Parameters seeded from a query and parameters added by hand meet under the same key only when the flags agree. */
  lemma AddParameterKeyInverted(name: string)
    requires ToLower(name) != name
    ensures ParameterKey(name, true) == ToLower(name)
    ensures ParameterKey(name, false) == name
    ensures NameCase(name, true) == name && NameCase(name, false) == ToLower(name)
  {
  }
}
