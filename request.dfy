/**
 * The immutable HTTP request: header and parameter lookup, form detection, server
 * name, path splitting, header replacement, bounded body reading and query-string
 * parsing.  A URI is given as its already-split path and query.
 */
module Requests {
  import opened Wrappers
  import opened JavaText
  import opened NamedValues
  import opened HttpValues

  /** The parts of java.net.URI the request reads; either may be null. */
  datatype Uri = Uri(path: Option<string>, query: Option<string>)

  datatype Request = Request(
    requestMethod: Method,
    uri: Uri,
    headers: map<string, Header>,
    parameters: map<string, Parameter>,
    body: Option<seq<byte>>,
    attributes: map<string, Attr>)

  /** An iteration order of a map: each of its keys exactly once. */
  predicate IsKeyOrder<V>(m: map<string, V>, keys: seq<string>)
  {
    |keys| == |m| && (forall i :: 0 <= i < |keys| ==> keys[i] in m) &&
    (forall i, j :: 0 <= i < j < |keys| ==> keys[i] != keys[j])
  }

  /** getHeaders and getParameters: the map's values, in the map's iteration order. */
  function ValuesInOrder<V>(m: map<string, V>, keys: seq<string>): (vs: seq<V>)
    requires forall i :: 0 <= i < |keys| ==> keys[i] in m
    ensures |vs| == |keys|
    ensures forall i :: 0 <= i < |keys| ==> vs[i] == m[keys[i]]
  {
    seq(|keys|, i requires 0 <= i < |keys| => m[keys[i]])
  }

  /**
   * The Request constructors: the maps are copied (null gives an empty map) and a
   * byte[] body is copied, so the request shares nothing mutable with its caller.
   */
  function NewRequest(requestMethod: Method, uri: Uri, headers: Option<map<string, Header>>,
                      parameters: Option<map<string, Parameter>>, body: Option<seq<byte>>,
                      attributes: Option<map<string, Attr>>): (r: Request)
    ensures r.requestMethod == requestMethod && r.uri == uri && r.body == body
    ensures r.headers == (if headers.Some? then headers.value else map[])
    ensures r.parameters == (if parameters.Some? then parameters.value else map[])
    ensures r.attributes == (if attributes.Some? then attributes.value else map[])
  {
    Request(requestMethod, uri, headers.GetOr(map[]), parameters.GetOr(map[]), body, attributes.GetOr(map[]))
  }

  /** Method.fromString: the upper-cased name of one of the five mapped methods, else null. */
  function MethodFromString(s: string): (m: Option<Method>)
    ensures m != Some(PATCH) && m != Some(OPTIONS)
  {
    match ToUpper(s)
    case "GET" => Some(GET)
    case "POST" => Some(POST)
    case "HEAD" => Some(HEAD)
    case "DELETE" => Some(DELETE)
    case "PUT" => Some(PUT)
    case _ => None
  }

  lemma UpperIdempotent(s: string)
    ensures ToUpper(ToUpper(s)) == ToUpper(s)
  {
  }

  /** fromString ignores case, and recognises the five names it maps. */
  lemma MethodFromStringFacts(s: string)
    ensures MethodFromString(s) == MethodFromString(ToUpper(s))
    ensures MethodFromString("get") == Some(GET) && MethodFromString("Post") == Some(POST)
    ensures MethodFromString("PATCH") == None && MethodFromString("options") == None
  {
    UpperIdempotent(s);
    assert ToUpper("get") == "GET";
    assert ToUpper("Post") == "POST";
    assert ToUpper("PATCH") == "PATCH";
    assert ToUpper("options") == "OPTIONS";
  }

  /** getHeader: the exact name first, then its lower-cased form, else null. */
  function GetHeader(r: Request, name: string): (h: Option<Header>)
    ensures h.Some? <==> name in r.headers || ToLower(name) in r.headers
    ensures name in r.headers ==> h == Some(r.headers[name])
    ensures name !in r.headers && ToLower(name) in r.headers ==> h == Some(r.headers[ToLower(name)])
  {
    if name in r.headers then Some(r.headers[name])
    else if ToLower(name) in r.headers then Some(r.headers[ToLower(name)])
    else None
  }

  /** getHeaderValue: the first value of the header getHeader finds. */
  function GetHeaderValue(r: Request, name: string): (v: Option<string>)
    ensures v.Some? <==> GetHeader(r, name).Some?
    ensures v.Some? ==> v.value == GetHeader(r, name).value.values[0]
  {
    var h := GetHeader(r, name);
    if h.Some? then Some(GetValue(h.value)) else None
  }

  /** getHeaderValues: every value of the header getHeader finds. */
  function GetHeaderValues(r: Request, name: string): (v: Option<seq<string>>)
    ensures v.Some? <==> GetHeader(r, name).Some?
    ensures v.Some? ==> v.value == GetHeader(r, name).value.values && |v.value| > 0
  {
    var h := GetHeader(r, name);
    if h.Some? then Some(h.value.values) else None
  }

  /** getParameterValue: exact-key lookup, no case fallback. */
  function GetParameterValue(r: Request, name: string): (v: Option<string>)
    ensures v.Some? <==> name in r.parameters
    ensures v.Some? ==> v.value == r.parameters[name].values[0]
  {
    if name in r.parameters then Some(GetValue(r.parameters[name])) else None
  }

  /** getParameterValues: exact-key lookup, no case fallback. */
  function GetParameterValues(r: Request, name: string): (v: Option<seq<string>>)
    ensures v.Some? <==> name in r.parameters
    ensures v.Some? ==> v.value == r.parameters[name].values
  {
    if name in r.parameters then Some(r.parameters[name].values) else None
  }

  const CONTENT_TYPE: string := "Content-Type"
  const FORM_ENCODED_CONTENT_TYPE: string := "application/x-www-form-urlencoded"

  function GetContentType(r: Request): Option<string>
  {
    GetHeaderValue(r, CONTENT_TYPE)
  }

  /** isFormEncoded: a POST with parameters, or a form Content-Type after lower-casing and trimming. */
  function IsFormEncoded(r: Request): (b: bool)
    ensures r.requestMethod == POST && |r.parameters| > 0 ==> b
    ensures !(r.requestMethod == POST && |r.parameters| > 0) ==>
      (b <==> GetContentType(r).Some? && StartsWith(Trim(ToLower(GetContentType(r).value)), FORM_ENCODED_CONTENT_TYPE))
    ensures GetContentType(r).None? && !(r.requestMethod == POST && |r.parameters| > 0) ==> !b
  {
    if r.requestMethod == POST && |r.parameters| > 0 then true
    else
      var contentType := GetContentType(r);
      if contentType.None? then false
      else StartsWith(Trim(ToLower(contentType.value)), FORM_ENCODED_CONTENT_TYPE)
  }

  /** getServerName: the Host header up to its first ':', or null for a missing or empty Host. */
  function GetServerName(r: Request): (s: Option<string>)
    ensures var host := GetHeaderValue(r, "Host");
      (s.None? <==> host.None? || host.value == "") &&
      (s.Some? ==> ':' !in s.value && StartsWith(host.value, s.value) &&
                   (s.value == host.value || host.value[|s.value|] == ':'))
  {
    var host := GetHeaderValue(r, "Host");
    if host.None? || host.value == "" then None
    else
      var index := IndexOf(host.value, ':');
      if index == -1 then host else Some(host.value[..index])
  }

  /** The trimmed tokens that are not empty, in order. */
  function TrimmedNonEmpty(tokens: seq<string>): (r: seq<string>)
    ensures forall i :: 0 <= i < |r| ==> r[i] != "" && Trim(r[i]) == r[i]
  {
    if |tokens| == 0 then []
    else
      var rest := TrimmedNonEmpty(tokens[..|tokens| - 1]);
      var t := Trim(tokens[|tokens| - 1]);
      TrimIdempotent(tokens[|tokens| - 1]);
      if t == "" then rest else rest + [t]
  }

  lemma TrimmedNonEmptySnoc(tokens: seq<string>, t: string)
    ensures TrimmedNonEmpty(tokens + [t]) ==
      TrimmedNonEmpty(tokens) + (if Trim(t) == "" then [] else [Trim(t)])
  {
    assert (tokens + [t])[..|tokens|] == tokens;
  }

  /** The loop shared by both getPathComponents: trim each token, keep the non-empty ones. */
  method CollectComponents(tokens: seq<string>) returns (components: seq<string>)
    ensures components == TrimmedNonEmpty(tokens)
  {
    components := [];
    var i := 0;
    while i < |tokens|
      invariant 0 <= i <= |tokens|
      invariant components == TrimmedNonEmpty(tokens[..i])
    {
      assert tokens[..i + 1] == tokens[..i] + [tokens[i]];
      TrimmedNonEmptySnoc(tokens[..i], tokens[i]);
      var current := Trim(tokens[i]);
      if |current| > 0 {
        components := components + [current];
      }
      i := i + 1;
    }
    assert tokens[..i] == tokens;
  }

  /** The static getPathComponents over a request path: the segments after the leading '/'. */
  method PathComponents(requestPath: string) returns (components: seq<string>)
    ensures |requestPath| < 2 ==> components == []
    ensures |requestPath| >= 2 ==> components == TrimmedNonEmpty(Tokens(requestPath[1..], '/'))
  {
    if |requestPath| < 2 {
      return [];
    }
    components := CollectComponents(Tokens(requestPath[1..], '/'));
  }

  /**
   * The instance getPathComponents as written: the tokenizer never returns the empty
   * piece before the leading '/', so skipping its first token drops the first segment.
   */
  function PathComponentsAsWritten(path: string): seq<string>
  {
    if |path| < 2 then []
    else
      var tokens := Tokens(path, '/');
      TrimmedNonEmpty(if |tokens| > 0 then tokens[1..] else tokens)
  }

  /** "/a/b" loses its first segment to the skipped token. */
  lemma PathComponentsAsWrittenDropsFirst()
    ensures PathComponentsAsWritten("/a/b") == ["b"]
  {
    TokensOfAb();
  }

  lemma TokensOfAb()
    ensures Tokens("/a/b", '/') == ["a", "b"]
    ensures Tokens("a/b", '/') == ["a", "b"]
  {
    assert IndexOf("b", '/') == -1;
    assert Split("b", '/') == ["b"];
    assert IndexOf("a/b", '/') == 1;
    assert "a/b"[2..] == "b" && "a/b"[..1] == "a";
    assert Split("a/b", '/') == ["a", "b"];
    assert IndexOf("/a/b", '/') == 0;
    assert "/a/b"[1..] == "a/b" && "/a/b"[..0] == "";
    assert Split("/a/b", '/') == ["", "a", "b"];
    assert NonEmpty(["b"]) == ["b"] by {
      assert ["b"][1..] == [];
    }
    assert NonEmpty(["a", "b"]) == ["a", "b"] by {
      assert ["a", "b"][1..] == ["b"];
    }
    assert ["", "a", "b"][1..] == ["a", "b"];
  }

  /** The instance getPathComponents as its comment intends: every segment of the path. */
  method GetPathComponents(r: Request) returns (components: Result<seq<string>>)
    ensures r.uri.path.None? ==> components == Failure(NullPointerException)
    ensures r.uri.path.Some? && |r.uri.path.value| < 2 ==> components == Success([])
    ensures r.uri.path.Some? && |r.uri.path.value| >= 2 ==>
      components == Success(TrimmedNonEmpty(Tokens(r.uri.path.value, '/')))
  {
    if r.uri.path.None? {
      return Failure(NullPointerException);
    }
    var path := r.uri.path.value;
    if |path| < 2 {
      return Success([]);
    }
    var c := CollectComponents(Tokens(path, '/'));
    components := Success(c);
  }

  /** A leading '/' only adds an empty piece, which the tokenizer drops. */
  lemma TokensSkipLeadingDelimiter(s: string, d: char)
    requires |s| > 0 && s[0] == d
    ensures Tokens(s, d) == Tokens(s[1..], d)
  {
    assert IndexOf(s, d) == 0;
    assert s[..0] == "";
    var parts := Split(s, d);
    assert parts == [""] + Split(s[1..], d);
    assert parts[1..] == Split(s[1..], d);
  }

  /** For a path that starts with '/', the corrected instance form agrees with the static form. */
  lemma InstanceAgreesWithStatic(path: string)
    requires |path| >= 2 && path[0] == '/'
    ensures TrimmedNonEmpty(Tokens(path, '/')) == TrimmedNonEmpty(Tokens(path[1..], '/'))
  {
    TokensSkipLeadingDelimiter(path, '/');
  }

  /** Request.addHeaders: a new request whose headers also hold the given ones, keyed by name. */
  method AddHeaders(r: Request, hs: seq<Header>) returns (res: Request)
    ensures res == r.(headers := PutByName(r.headers, hs))
  {
    var newHeaders := r.headers;
    var i := 0;
    while i < |hs|
      invariant 0 <= i <= |hs|
      invariant newHeaders == PutByName(r.headers, hs[..i])
    {
      assert hs[..i + 1][..i] == hs[..i];
      newHeaders := newHeaders[hs[i].name := hs[i]];
      i := i + 1;
    }
    assert hs[..i] == hs;
    res := NewRequest(r.requestMethod, r.uri, Some(newHeaders), Some(r.parameters), r.body, Some(r.attributes));
  }

  /** An input stream as the bytes it yields, an optional failure at its end and one on close. */
  datatype InputStream = InputStream(content: seq<byte>, readFailure: Option<string>, closeFailure: Option<string>)

  /**
   * bodyFromInputStream: reads at most maxBytesRead bytes; a body shorter than the limit
   * is returned, a body that reaches it raises DataLimitException.
   */
  function BodyFromInputStream(input: InputStream, maxBytesRead: int): (r: Result<seq<byte>>)
    ensures maxBytesRead < 0 ==> r.Failure? && r.error.IllegalArgumentException?
    ensures r.Success? ==> r.value == input.content && |r.value| < maxBytesRead
    ensures 0 <= maxBytesRead <= |input.content| ==> r.Failure? && r.error.DataLimitException?
    ensures |input.content| < maxBytesRead && input.readFailure.None? ==> r == Success(input.content)
  {
    if maxBytesRead < 0 then Failure(IllegalArgumentException("limit must be non-negative"))
    else
      var body := if |input.content| <= maxBytesRead then input.content else input.content[..maxBytesRead];
      if |input.content| < maxBytesRead && input.readFailure.Some? then Failure(IOException(input.readFailure.value))
      else if |body| < maxBytesRead then Success(body)
      else Failure(DataLimitException("The size of the body exceeds the limit of " + IntToString(maxBytesRead) + " bytes"))
  }

  /** The name and value of one query token, as Request.parseParameters computes them. */
  function PairAsWritten(nv: string): (string, string)
  {
    var index := IndexOf(nv, '=');
    if index == -1 || index == |nv| - 1 then (nv, "") else (nv[index..], nv[index + 1..])
  }

  /** The name and value of one query token, the name being the text before the '='. */
  function Pair(nv: string): (p: (string, string))
    ensures '=' !in nv ==> p == (nv, "")
    ensures var i := IndexOf(nv, '='); 0 <= i < |nv| - 1 ==> p == (nv[..i], nv[i + 1..]) && '=' !in p.0
  {
    var index := IndexOf(nv, '=');
    if index == -1 || index == |nv| - 1 then (nv, "") else (nv[..index], nv[index + 1..])
  }

  /** Adds one value under a name: a new parameter, or addValue to the existing one. */
  function AddParameterValue(m: map<string, Parameter>, name: string, value: string): map<string, Parameter>
  {
    if name in m then m[name := AddValue(m[name], Some(value))] else m[name := FromValue(name, Some(value))]
  }

  function NameCase(name: string, caseSensitiveNames: bool): string
  {
    if caseSensitiveNames then name else ToLower(name)
  }

  /** The parameter map after the given tokens, in order. */
  function ParseTokens(tokens: seq<string>, caseSensitiveNames: bool, asWritten: bool): map<string, Parameter>
  {
    if |tokens| == 0 then map[]
    else
      var pair := if asWritten then PairAsWritten(tokens[|tokens| - 1]) else Pair(tokens[|tokens| - 1]);
      AddParameterValue(ParseTokens(tokens[..|tokens| - 1], caseSensitiveNames, asWritten),
                        NameCase(pair.0, caseSensitiveNames), pair.1)
  }

  /** The query string without one leading '?' or '&'. */
  function StripLeader(q: string): string
  {
    if |q| > 0 && (q[0] == '?' || q[0] == '&') then q[1..] else q
  }

  /** parseParameters as written, including its name computation. */
  function ParseParametersAsWritten(queryString: Option<string>, caseSensitiveNames: bool): map<string, Parameter>
  {
    if queryString.None? || queryString.value == "" then map[]
    else ParseTokens(Tokens(StripLeader(queryString.value), '&'), caseSensitiveNames, true)
  }

  /** parseParameters, with the name taken from before the '='. */
  function ParsedParameters(queryString: Option<string>, caseSensitiveNames: bool): map<string, Parameter>
  {
    if queryString.None? || queryString.value == "" then map[]
    else ParseTokens(Tokens(StripLeader(queryString.value), '&'), caseSensitiveNames, false)
  }

  /** As written, "a=b" is stored under the name "=b" rather than "a". */
  lemma ParseParametersAsWrittenNameBug()
    ensures "=b" in ParseParametersAsWritten(Some("a=b"), true)
    ensures "a" !in ParseParametersAsWritten(Some("a=b"), true)
  {
    assert IndexOf("a=b", '&') == -1;
    NoDelimiterOneToken("a=b", '&');
    assert IndexOf("a=b", '=') == 1;
    assert "a=b"[1..] == "=b";
  }

  lemma ParseOneToken(t: string, caseSensitiveNames: bool)
    ensures var name := NameCase(Pair(t).0, caseSensitiveNames);
      ParseTokens([t], caseSensitiveNames, false) == map[name := ImmutableNamedValues(name, [Pair(t).1])]
  {
    assert [t][..0] == [];
  }

  lemma PairOfAeqB(t: string)
    requires |t| == 3 && t[1] == '=' && t[0] != '=' && t[2] == 'b'
    ensures Pair(t) == ([t[0]], "b")
  {
    assert IndexOf(t, '=') == 1;
    assert t[..1] == [t[0]] && t[2..] == "b";
  }

  /** The corrected parse stores "a=b" under "a" with the value "b". */
  lemma ParseParametersSinglePair()
    ensures ParsedParameters(Some("a=b"), true) == map["a" := ImmutableNamedValues("a", ["b"])]
  {
    NoDelimiterOneToken("a=b", '&');
    PairOfAeqB("a=b");
    ParseOneToken("a=b", true);
  }

  /** Without case-sensitive names, a leading '?' is dropped and "A" is stored as "a". */
  lemma ParseParametersLowerCases()
    ensures ParsedParameters(Some("?A=b"), false) == map["a" := ImmutableNamedValues("a", ["b"])]
  {
    assert StripLeader("?A=b") == "A=b";
    NoDelimiterOneToken("A=b", '&');
    PairOfAeqB("A=b");
    ParseOneToken("A=b", false);
    assert ToLower("A") == "a";
  }

  /** The key one query token is stored under. */
  function TokenName(t: string, caseSensitiveNames: bool, asWritten: bool): string
  {
    NameCase((if asWritten then PairAsWritten(t) else Pair(t)).0, caseSensitiveNames)
  }

  /** The keys of all the tokens. */
  function TokenNames(tokens: seq<string>, caseSensitiveNames: bool, asWritten: bool): set<string>
  {
    if |tokens| == 0 then {}
    else
      var last := TokenName(tokens[|tokens| - 1], caseSensitiveNames, asWritten);
      TokenNames(tokens[..|tokens| - 1], caseSensitiveNames, asWritten) + {last}
  }

  lemma {:induction false} TokenNamesMembers(tokens: seq<string>, caseSensitiveNames: bool, asWritten: bool, k: string)
    ensures k in TokenNames(tokens, caseSensitiveNames, asWritten) <==>
      exists i :: 0 <= i < |tokens| && k == TokenName(tokens[i], caseSensitiveNames, asWritten)
  {
    if |tokens| > 0 {
      var init := tokens[..|tokens| - 1];
      TokenNamesMembers(init, caseSensitiveNames, asWritten, k);
      assert forall i :: 0 <= i < |init| ==> tokens[i] == init[i];
      if exists i :: 0 <= i < |tokens| && k == TokenName(tokens[i], caseSensitiveNames, asWritten) {
        var i :| 0 <= i < |tokens| && k == TokenName(tokens[i], caseSensitiveNames, asWritten);
        if i < |init| {
          assert k == TokenName(init[i], caseSensitiveNames, asWritten);
        }
      }
    }
  }

  lemma {:induction false} ParseTokensKeySet(tokens: seq<string>, caseSensitiveNames: bool, asWritten: bool)
    ensures ParseTokens(tokens, caseSensitiveNames, asWritten).Keys == TokenNames(tokens, caseSensitiveNames, asWritten)
  {
    if |tokens| > 0 {
      ParseTokensKeySet(tokens[..|tokens| - 1], caseSensitiveNames, asWritten);
    }
  }

  lemma {:induction false} ParseTokensNames(tokens: seq<string>, caseSensitiveNames: bool, asWritten: bool)
    ensures forall k :: k in ParseTokens(tokens, caseSensitiveNames, asWritten) ==>
      ParseTokens(tokens, caseSensitiveNames, asWritten)[k].name == k &&
      (!caseSensitiveNames ==> ToLower(k) == k)
  {
    if |tokens| > 0 {
      ParseTokensNames(tokens[..|tokens| - 1], caseSensitiveNames, asWritten);
      var pair := if asWritten then PairAsWritten(tokens[|tokens| - 1]) else Pair(tokens[|tokens| - 1]);
      LowerIdempotent(pair.0);
    }
  }

  /**
   * The parsed keys are exactly the names of the tokens, in the case the flag selects, and
   * each parameter is stored under its own name.
   */
  lemma ParseTokensKeys(tokens: seq<string>, caseSensitiveNames: bool, asWritten: bool)
    ensures forall k :: k in ParseTokens(tokens, caseSensitiveNames, asWritten) <==>
      exists i :: 0 <= i < |tokens| && k == TokenName(tokens[i], caseSensitiveNames, asWritten)
    ensures forall k :: k in ParseTokens(tokens, caseSensitiveNames, asWritten) ==>
      ParseTokens(tokens, caseSensitiveNames, asWritten)[k].name == k &&
      (!caseSensitiveNames ==> ToLower(k) == k)
  {
    ParseTokensKeySet(tokens, caseSensitiveNames, asWritten);
    ParseTokensNames(tokens, caseSensitiveNames, asWritten);
    forall k {
      TokenNamesMembers(tokens, caseSensitiveNames, asWritten, k);
    }
  }

  /** Each token adds exactly one value to the parameter of its name: duplicates append. */
  lemma ParseTokensAppends(tokens: seq<string>, t: string, caseSensitiveNames: bool)
    ensures var before := ParseTokens(tokens, caseSensitiveNames, false);
      var after := ParseTokens(tokens + [t], caseSensitiveNames, false);
      var name := NameCase(Pair(t).0, caseSensitiveNames);
      after.Keys == before.Keys + {name} &&
      after[name].values == (if name in before then before[name].values else []) + [Pair(t).1] &&
      forall k :: k in before && k != name ==> after[k] == before[k]
  {
    assert (tokens + [t])[..|tokens|] == tokens;
    var name := NameCase(Pair(t).0, caseSensitiveNames);
    var before := ParseTokens(tokens, caseSensitiveNames, false);
    assert ParseTokens(tokens + [t], caseSensitiveNames, false) == AddParameterValue(before, name, Pair(t).1);
    if name !in before {
      assert SingleValues(Some(Pair(t).1)) == [Pair(t).1];
    }
  }

  /**
   * The body of parseParameters' loop: one token's name and value, added to the map.  With
   * asWritten the name is `nv.substring(index)`, as Request.java has it; without it the
   * name is the text before the '='.
   */
  method AddToken(parameters: map<string, Parameter>, nv: string, caseSensitiveNames: bool, asWritten: bool)
    returns (updated: map<string, Parameter>)
    ensures updated == AddParameterValue(parameters, TokenName(nv, caseSensitiveNames, asWritten), Pair(nv).1)
  {
    var index := IndexOf(nv, '=');
    var name, value;
    if index == -1 || index == |nv| - 1 {
      name, value := nv, "";
    } else if asWritten {
      name, value := nv[index..], nv[index + 1..];
    } else {
      name, value := nv[..index], nv[index + 1..];
    }
    assert (name, value) == (if asWritten then PairAsWritten(nv) else Pair(nv));
    assert value == Pair(nv).1;
    name := NameCase(name, caseSensitiveNames);
    assert name == TokenName(nv, caseSensitiveNames, asWritten);
    if name in parameters {
      updated := parameters[name := AddValue(parameters[name], Some(value))];
    } else {
      updated := parameters[name := FromValue(name, Some(value))];
    }
  }

  /** One more token: its value added under its key; the value is the same in both forms. */
  lemma ParseTokensStep(tokens: seq<string>, i: nat, caseSensitiveNames: bool, asWritten: bool)
    requires i < |tokens|
    ensures ParseTokens(tokens[..i + 1], caseSensitiveNames, asWritten) ==
      AddParameterValue(ParseTokens(tokens[..i], caseSensitiveNames, asWritten),
                        TokenName(tokens[i], caseSensitiveNames, asWritten), Pair(tokens[i]).1)
  {
    assert tokens[..i + 1][..i] == tokens[..i];
    assert PairAsWritten(tokens[i]).1 == Pair(tokens[i]).1;
  }

  /**
   * parseParameters(queryString, caseSensitiveNames): the loop over the '&' tokens, as
   * written (asWritten) or with the corrected name.
   */
  method ParseParameters(queryString: Option<string>, caseSensitiveNames: bool, asWritten: bool)
    returns (parameters: map<string, Parameter>)
    ensures asWritten ==> parameters == ParseParametersAsWritten(queryString, caseSensitiveNames)
    ensures !asWritten ==> parameters == ParsedParameters(queryString, caseSensitiveNames)
  {
    if queryString.None? || queryString.value == "" {
      return map[];
    }
    var q := StripLeader(queryString.value);
    var tokens := Tokens(q, '&');
    parameters := map[];
    var i := 0;
    while i < |tokens|
      invariant 0 <= i <= |tokens|
      invariant parameters == ParseTokens(tokens[..i], caseSensitiveNames, asWritten)
    {
      ParseTokensStep(tokens, i, caseSensitiveNames, asWritten);
      parameters := AddToken(parameters, tokens[i], caseSensitiveNames, asWritten);
      i := i + 1;
    }
    assert tokens[..i] == tokens;
  }
}
