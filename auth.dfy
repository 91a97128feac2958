/**
 * AuthScheme and its Basic implementation: the challenge response, the Authorization
 * header value credentials are sent in, and the server-side reading of that header.
 * SHA-1 digests are symbolic (one per input), so two digests are equal exactly when
 * their inputs are.
 */
module Auth {
  import opened Wrappers
  import opened JavaText
  import opened Base64
  import opened NamedValues
  import opened HttpValues
  import opened Requests
  import opened Responses

  /** A scheme name and an optional realm, fixed at construction. */
  datatype AuthScheme = AuthScheme(scheme: string, realm: Option<string>)

  /** AuthScheme.equals: the same scheme and the same realm, two null realms being equal. */
  predicate SchemeEquals(a: AuthScheme, b: AuthScheme)
  {
    a.scheme == b.scheme && a.realm == b.realm
  }

  lemma SchemeEqualsIsEquality(a: AuthScheme, b: AuthScheme)
    ensures SchemeEquals(a, b) <==> a == b
    ensures SchemeEquals(a, a)
    ensures SchemeEquals(a, b) == SchemeEquals(b, a)
  {
  }

  /** The WWW-Authenticate value of a challenge: the scheme, then " realm=" and the realm if there is one. */
  function Challenge(s: AuthScheme): (v: string)
    ensures StartsWith(v, s.scheme)
    ensures s.realm.None? ==> v == s.scheme
    ensures s.realm.Some? ==> v[|s.scheme|..] == " realm=" + s.realm.value
  {
    if s.realm.Some? then s.scheme + " realm=" + s.realm.value else s.scheme
  }

  const DEFAULT_CHALLENGE_MESSAGE: string := "Authorization Required"

  /** The content of a challenge response: its body and its headers. */
  datatype ChallengeContent = ChallengeContent(body: Body, headers: map<string, Header>)

  /**
   * The challenge a scheme sends with a message: the message (or the standard one) in
   * UTF-8 as the body, and the challenge alone under the lower-cased WWW-Authenticate.
   */
  function ChallengeOf(s: AuthScheme, message: Option<string>): ChallengeContent
  {
    ChallengeContent(
      Held(Some(Utf8Encode(if message.None? then DEFAULT_CHALLENGE_MESSAGE else message.value))),
      map[ToLower("WWW-Authenticate") := FromValue("WWW-Authenticate", Some(Challenge(s)))])
  }

  /** getUnauthorizedResponse: a new challenge response. */
  method GetUnauthorizedResponse(s: AuthScheme, message: Option<string>) returns (r: Response)
    ensures fresh(r)
    ensures r.statusCode == UNAUTHORIZED
    ensures r.body == ChallengeOf(s, message).body && r.headers == ChallengeOf(s, message).headers
    ensures r.attributes.None? && r.stats.None? && r.timing.None?
  {
    var buf := s.scheme;
    if s.realm.Some? {
      buf := buf + " realm=" + s.realm.value;
    }
    var builder := new ResponseBuilder.WithText(UNAUTHORIZED, if message.None? then DEFAULT_CHALLENGE_MESSAGE else message.value);
    r := builder.Create();
    r.SetHeader("WWW-Authenticate", Some(buf));
  }

  const AUTH_HEADER: string := "Authorization"

  /** The prefix a Basic Authorization value starts with, once lower-cased. */
  const BASIC_PREFIX: string := "basic "

  /** The user id and password as sent: each trimmed, joined by ':'. */
  function UserPass(username: string, password: string): string
  {
    Trim(username) + ":" + Trim(password)
  }

  /** buildAuthHeaderValue: "Basic " followed by the base 64 encoding of the joined credentials. */
  function BuildAuthHeaderValue(username: string, password: string): (v: string)
    ensures StartsWith(v, "Basic ")
    ensures Decode(v[6..]) == Some(Utf8Encode(UserPass(username, password)))
    ensures forall i :: 6 <= i < |v| ==> !IsSpace(v[i])
  {
    var encoded := Encode(Utf8Encode(UserPass(username, password)));
    DecodeEncode(Utf8Encode(UserPass(username, password)));
    assert ("Basic " + encoded)[6..] == encoded;
    "Basic " + encoded
  }

  /** buildAuthHeaders: the one Authorization header carrying those credentials. */
  function AuthHeader(username: string, password: string): (h: Header)
    ensures h.name == AUTH_HEADER && h.values == [BuildAuthHeaderValue(username, password)]
  {
    FromValue(AUTH_HEADER, Some(BuildAuthHeaderValue(username, password)))
  }

  /** addAuth: a new request whose Authorization header holds the credentials; nothing else differs. */
  method AddAuth(r: Request, id: string, secret: string) returns (res: Request)
    ensures res.headers == r.headers[AUTH_HEADER := AuthHeader(id, secret)]
    ensures res.requestMethod == r.requestMethod && res.uri == r.uri && res.parameters == r.parameters
    ensures res.body == r.body && res.attributes == r.attributes
  {
    res := AddHeaders(r, [AuthHeader(id, secret)]);
    assert [AuthHeader(id, secret)][..0] == [];
  }

  /** hasCredentials: an Authorization value that starts with "basic " in any letter case. */
  predicate HasCredentials(r: Request)
  {
    var auth := GetHeaderValue(r, AUTH_HEADER);
    auth.Some? && StartsWith(ToLower(auth.value), BASIC_PREFIX)
  }

  /** What the Authorization header of a request holds, as getUserId and authenticate read it. */
  datatype Credentials =
    | NoHeader                   // missing or empty
    | OtherScheme                // not "basic " in any letter case
    | Undecodable                // the base 64 decoder refuses the text
    | Decoded(upass: string)     // the decoded, trimmed "user:password" text

  /** The reading of an Authorization value: the text after six characters, trimmed, decoded, trimmed. */
  function ReadAuthorization(auth: Option<string>): (c: Credentials)
    ensures c.NoHeader? <==> auth.None? || |auth.value| == 0
    ensures c.Undecodable? || c.Decoded? <==> auth.Some? && StartsWith(ToLower(auth.value), BASIC_PREFIX)
  {
    if auth.None? || |auth.value| == 0 then NoHeader
    else if !StartsWith(ToLower(auth.value), BASIC_PREFIX) then OtherScheme
    else
      var bytes := Decode(Trim(auth.value[6..]));
      if bytes.None? then Undecodable else Decoded(Trim(Utf8Decode(bytes.value)))
  }

  /** What getUserId and authenticate find in a request's Authorization header. */
  function ReadCredentials(r: Request): (c: Credentials)
    ensures HasCredentials(r) <==> c.Undecodable? || c.Decoded?
  {
    ReadAuthorization(GetHeaderValue(r, AUTH_HEADER))
  }

  /** The exception Guava's decoder raises for text outside the base 64 alphabet. */
  const DECODING_FAILURE: Throwable := IllegalArgumentException("Unrecognized character")

  /** The user id in some credentials: the text before the first ':', or null when that index is below 1. */
  function UserIdOf(c: Credentials): (u: Result<Option<string>>)
    ensures u.Failure? <==> c.Undecodable?
    ensures u.Success? && u.value.Some? ==>
      c.Decoded? && |u.value.value| > 0 && ':' !in u.value.value && StartsWith(c.upass, u.value.value + ":")
    ensures c.Decoded? && 0 < IndexOf(c.upass, ':') ==> u.Success? && u.value.Some?
  {
    match c
    case Undecodable => Failure(DECODING_FAILURE)
    case Decoded(upass) =>
      var index := IndexOf(upass, ':');
      if index < 1 then Success(None)
      else
        assert upass[..index + 1] == upass[..index] + ":";
        Success(Some(upass[..index]))
    case _ => Success(None)
  }

  /** getUserId: null for a missing or non-basic header; otherwise the user id of the decoded credentials. */
  function GetUserId(r: Request): (u: Result<Option<string>>)
    ensures u.Failure? <==> ReadCredentials(r).Undecodable?
    ensures u.Success? && u.value.Some? ==>
      HasCredentials(r) && |u.value.value| > 0 && ':' !in u.value.value &&
      StartsWith(ReadCredentials(r).upass, u.value.value + ":")
  {
    UserIdOf(ReadCredentials(r))
  }

  /** authenticate's four outcomes. */
  datatype Verdict = Accepted | Unauthorized | InvalidScheme | InvalidFormat

  /** The verdict on some credentials: the digest of the decoded text against that of userId + ":" + secret. */
  function VerdictOf(c: Credentials, userId: string, secret: string): (v: Result<Verdict>)
    ensures v.Failure? <==> c.Undecodable?
    ensures v == Success(InvalidScheme) <==> c.OtherScheme?
    ensures v == Success(InvalidFormat) <==> c.Decoded? && IndexOf(c.upass, ':') < 1
    ensures v == Success(Accepted) ==> c.Decoded? && UserIdOf(c).Success? && UserIdOf(c).value.Some?
  {
    match c
    case NoHeader => Success(Unauthorized)
    case OtherScheme => Success(InvalidScheme)
    case Undecodable => Failure(DECODING_FAILURE)
    case Decoded(upass) =>
      if IndexOf(upass, ':') < 1 then Success(InvalidFormat)
      else if Sha1(Utf8Encode(upass)) == Sha1(Utf8Encode(userId) + Utf8Encode(":") + Utf8Encode(secret))
      then Success(Accepted)
      else Success(Unauthorized)
  }

  /** authenticate's decision for a request. */
  function CheckCredentials(r: Request, userId: string, secret: string): (v: Result<Verdict>)
    ensures v == Success(Unauthorized) ==> !HasCredentials(r) || ReadCredentials(r).Decoded?
    ensures v.Success? && v.value != Unauthorized && v.value != InvalidScheme ==> HasCredentials(r)
  {
    VerdictOf(ReadCredentials(r), userId, secret)
  }

  /** Comparing the digests is comparing the decoded credentials with userId + ":" + secret. */
  lemma AcceptedIffCredentialsMatch(upass: string, userId: string, secret: string)
    ensures VerdictOf(Decoded(upass), userId, secret) == Success(Accepted) <==>
      IndexOf(upass, ':') >= 1 && upass == userId + ":" + secret
  {
    JoinedEncoding(userId, secret);
    if Utf8Encode(upass) == Utf8Encode(userId + ":" + secret) {
      Utf8EncodeInjective(upass, userId + ":" + secret);
    }
  }

  /** Hashing the three parts in turn hashes the encoding of the joined text. */
  lemma JoinedEncoding(userId: string, secret: string)
    ensures Utf8Encode(userId) + Utf8Encode(":") + Utf8Encode(secret) == Utf8Encode(userId + ":" + secret)
  {
    Utf8EncodeAppend(userId, ":" + secret);
    Utf8EncodeAppend(":", secret);
    assert userId + (":" + secret) == userId + ":" + secret;
  }

  /** The joined credentials have no surrounding blanks: each part is trimmed and ':' is not blank. */
  lemma UserPassIsTrimmed(id: string, secret: string)
    ensures Trim(UserPass(id, secret)) == UserPass(id, secret)
  {
    var u, t := Trim(id), Trim(secret);
    var j := UserPass(id, secret);
    assert j[0] == if |u| == 0 then ':' else u[0];
    assert j[|j| - 1] == if |t| == 0 then ':' else t[|t| - 1];
    TrimOfTrimmed(j);
  }

  /** Decoding the sent bytes gives the joined credentials back, untouched by the trim. */
  lemma DecodeSentUserPass(id: string, secret: string)
    ensures Trim(Utf8Decode(Utf8Encode(UserPass(id, secret)))) == UserPass(id, secret)
  {
    Utf8RoundTrip(UserPass(id, secret));
    UserPassIsTrimmed(id, secret);
  }

  /** The value buildAuthHeaderValue produces is read back as the decoded credentials. */
  lemma SentValueIsRead(id: string, secret: string)
    ensures ReadAuthorization(Some(BuildAuthHeaderValue(id, secret))) == Decoded(UserPass(id, secret))
  {
    var v := BuildAuthHeaderValue(id, secret);
    ReadBasicValue(v, Utf8Encode(UserPass(id, secret)));
    DecodeSentUserPass(id, secret);
  }

  /** A "Basic " value whose encoded part has no blanks is read as the decoding of that part. */
  lemma ReadBasicValue(v: string, bytes: seq<byte>)
    requires StartsWith(v, "Basic ") && forall i :: 6 <= i < |v| ==> !IsSpace(v[i])
    requires Decode(v[6..]) == Some(bytes)
    ensures ReadAuthorization(Some(v)) == Decoded(Trim(Utf8Decode(bytes)))
  {
    BasicValueIsBasic(v);
    TrimOfTrimmed(v[6..]);
    assert |v| != 0 && Decode(Trim(v[6..])) == Some(bytes);
  }

  /** A value starting with "Basic " starts with "basic " once lower-cased. */
  lemma BasicValueIsBasic(v: string)
    requires StartsWith(v, "Basic ")
    ensures StartsWith(ToLower(v), BASIC_PREFIX)
  {
    assert ToLower(v)[..6] == ToLower(v[..6]);
    assert ToLower("Basic ") == BASIC_PREFIX;
  }

  /** addAuth's header is the one getHeaderValue finds. */
  lemma AddedAuthHeaderFound(r: Request, id: string, secret: string)
    ensures GetHeaderValue(r.(headers := r.headers[AUTH_HEADER := AuthHeader(id, secret)]), AUTH_HEADER) ==
      Some(BuildAuthHeaderValue(id, secret))
  {
  }

  /** addAuth's request is read as carrying the decoded credentials it was given. */
  lemma AddedAuthCredentials(r: Request, id: string, secret: string)
    ensures ReadCredentials(r.(headers := r.headers[AUTH_HEADER := AuthHeader(id, secret)])) ==
      Decoded(UserPass(id, secret))
  {
    AddedAuthHeaderFound(r, id, secret);
    SentValueIsRead(id, secret);
  }

  /** In "u:rest" with no ':' in a non-empty u, the first ':' follows u. */
  lemma FirstColonAfter(u: string, rest: string)
    requires |u| > 0 && ':' !in u
    ensures IndexOf(u + ":" + rest, ':') == |u| > 0
    ensures (u + ":" + rest)[..|u|] == u
  {
    var upass := u + ":" + rest;
    assert upass[..|u|] == u;
    IndexOfIs(upass, ':', |u|);
  }

  /** The user id read back from addAuth's request is the trimmed id sent, when that is non-empty without ':'. */
  lemma UserIdRoundTrip(r: Request, id: string, secret: string)
    requires |Trim(id)| > 0 && ':' !in Trim(id)
    ensures GetUserId(r.(headers := r.headers[AUTH_HEADER := AuthHeader(id, secret)])) == Success(Some(Trim(id)))
  {
    AddedAuthCredentials(r, id, secret);
    FirstColonAfter(Trim(id), Trim(secret));
  }

  /**
   * An addAuth request has credentials, and authenticate accepts it for exactly the userId
   * and secret whose join is the text sent, provided its first ':' is not at position 0;
   * in particular the trimmed id and secret sent are accepted when the id is non-empty
   * and holds no ':'.
   */
  lemma AddedAuthAccepted(r: Request, id: string, secret: string, userId: string, key: string)
    ensures var r2 := r.(headers := r.headers[AUTH_HEADER := AuthHeader(id, secret)]);
      HasCredentials(r2) &&
      (CheckCredentials(r2, userId, key) == Success(Accepted) <==>
         IndexOf(UserPass(id, secret), ':') >= 1 && UserPass(id, secret) == userId + ":" + key)
    ensures |Trim(id)| > 0 && ':' !in Trim(id) ==>
      CheckCredentials(r.(headers := r.headers[AUTH_HEADER := AuthHeader(id, secret)]), Trim(id), Trim(secret)) ==
        Success(Accepted)
  {
    AddedAuthCredentials(r, id, secret);
    AcceptedIffCredentialsMatch(UserPass(id, secret), userId, key);
    AcceptedIffCredentialsMatch(UserPass(id, secret), Trim(id), Trim(secret));
    if |Trim(id)| > 0 && ':' !in Trim(id) {
      FirstColonAfter(Trim(id), Trim(secret));
    }
  }

  /** The reading of the Authorization header that authenticate starts with, check by check. */
  method ReadHeaderCredentials(r: Request) returns (c: Credentials)
    ensures c == ReadCredentials(r)
  {
    var authorization := GetHeaderValue(r, AUTH_HEADER);
    if authorization.None? || |authorization.value| == 0 {
      return NoHeader;
    }
    if !StartsWith(ToLower(authorization.value), BASIC_PREFIX) {
      return OtherScheme;
    }
    var encoded := Trim(authorization.value[6..]);
    var bytes := Decode(encoded);
    if bytes.None? {
      return Undecodable;
    }
    c := Decoded(Trim(Utf8Decode(bytes.value)));
  }

  /** The checks of authenticate after the header is read: the ':' and the two digests. */
  method DecideVerdict(c: Credentials, userId: string, secret: string) returns (v: Result<Verdict>)
    ensures v == VerdictOf(c, userId, secret)
  {
    match c {
      case NoHeader => return Success(Unauthorized);
      case OtherScheme => return Success(InvalidScheme);
      case Undecodable => return Failure(DECODING_FAILURE);
      case Decoded(upass) =>
        var index := IndexOf(upass, ':');
        if index < 1 {
          return Success(InvalidFormat);
        }
        var hash0 := Sha1(Utf8Encode(upass));
        var hash1 := Sha1(Utf8Encode(userId) + Utf8Encode(":") + Utf8Encode(secret));
        v := Success(if hash0 == hash1 then Accepted else Unauthorized);
    }
  }

  /** BasicAuthScheme: the "Basic" scheme with its three prepared challenge responses. */
  class BasicAuthScheme {
    const scheme: AuthScheme
    const invalidFormatResponse: Response
    const invalidSchemeResponse: Response
    const unauthorizedResponse: Response

    /** BasicAuthScheme(realm); a null realm, like the no-argument constructor, is stored as "". */
    constructor (realm: Option<string>)
      ensures scheme == AuthScheme("Basic", Some(realm.GetOr("")))
      ensures fresh(invalidFormatResponse) && fresh(invalidSchemeResponse) && fresh(unauthorizedResponse)
      ensures invalidFormatResponse.statusCode == UNAUTHORIZED && invalidFormatResponse.body == ChallengeOf(scheme, Some("Invalid format")).body
      ensures invalidSchemeResponse.statusCode == UNAUTHORIZED && invalidSchemeResponse.body == ChallengeOf(scheme, Some("Invalid scheme")).body
      ensures unauthorizedResponse.statusCode == UNAUTHORIZED && unauthorizedResponse.body == ChallengeOf(scheme, None).body
    {
      var s := AuthScheme("Basic", Some(if realm.None? then "" else realm.value));
      scheme := s;
      var invalidFormat := GetUnauthorizedResponse(s, Some("Invalid format"));
      var invalidScheme := GetUnauthorizedResponse(s, Some("Invalid scheme"));
      var unauthorized := GetUnauthorizedResponse(s, None);
      invalidFormatResponse := invalidFormat;
      invalidSchemeResponse := invalidScheme;
      unauthorizedResponse := unauthorized;
    }

    /** The prepared response for a verdict; null when the request is accepted. */
    function ResponseFor(v: Verdict): Option<Response>
    {
      match v
      case Accepted => None
      case Unauthorized => Some(unauthorizedResponse)
      case InvalidScheme => Some(invalidSchemeResponse)
      case InvalidFormat => Some(invalidFormatResponse)
    }

    /** authenticate: null when the credentials match, otherwise the prepared response for the failure. */
    method Authenticate(r: Request, userId: string, secret: string) returns (res: Result<Option<Response>>)
      ensures CheckCredentials(r, userId, secret).Failure? ==> res == Failure(DECODING_FAILURE)
      ensures CheckCredentials(r, userId, secret).Success? ==>
        res == Success(ResponseFor(CheckCredentials(r, userId, secret).value))
    {
      var c := ReadHeaderCredentials(r);
      var verdict := DecideVerdict(c, userId, secret);
      if verdict.Failure? {
        return Failure(verdict.error);
      }
      res := Success(ResponseFor(verdict.value));
    }
  }
}
