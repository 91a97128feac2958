/**
 * The Apache Commons HttpClient 3 binding without its transport: the HttpMethod that
 * send prepares from a Request (the method switch, the client's User-Agent and the
 * request headers, each value set with setRequestHeader), the map getMap makes of the
 * response's header pairs, and the Response send builds from the status code, the body
 * stream and that map.  What executeMethod returns is a parameter.
 */
module Commons3Binding {
  import opened Wrappers
  import opened JavaText
  import opened NamedValues
  import opened HttpValues
  import opened Requests
  import opened Responses
  import opened HeaderFields

  // ---------------------------------------------------------------------------
  // getMap

  /** A response header as HttpClient returns it: a name and a possibly null value. */
  datatype NameValuePair = NameValuePair(name: string, value: Option<string>)

  /** The values of the pairs named key, in order. */
  function PairValues(pairs: seq<NameValuePair>, key: string): seq<Option<string>>
  {
    if |pairs| == 0 then []
    else
      var p := pairs[|pairs| - 1];
      PairValues(pairs[..|pairs| - 1], key) + (if p.name == key then [p.value] else [])
  }

  /** No header value is null. */
  predicate NoNullValues(pairs: seq<NameValuePair>)
  {
    forall i :: 0 <= i < |pairs| ==> pairs[i].value.Some?
  }

  /** Whether get finds a value under key: a null that was put reads back as absent. */
  predicate Holds(m: map<string, InputValue>, key: string)
  {
    key in m && m[key] != Scalar(None)
  }

  /**
   * One pair into getMap's map: the first value is put as a String, a value after a
   * List is appended to it, and a value after a String starts a List.  As written that
   * List holds only the new value; corrected, it holds the String and the new value.
   */
  function PutPair(m: map<string, InputValue>, p: NameValuePair, asWritten: bool): map<string, InputValue>
  {
    if !Holds(m, p.name) then m[p.name := Scalar(p.value)]
    else if m[p.name].Elements? then m[p.name := Elements(m[p.name].items + [p.value])]
    else if asWritten || !m[p.name].Scalar? then m[p.name := Elements([p.value])]
    else m[p.name := Elements([m[p.name].value, p.value])]
  }

  /** The map after putting every pair in order. */
  function Collected(pairs: seq<NameValuePair>, asWritten: bool): map<string, InputValue>
  {
    if |pairs| == 0 then map[]
    else PutPair(Collected(pairs[..|pairs| - 1], asWritten), pairs[|pairs| - 1], asWritten)
  }

  /** getMap: the empty map for null or no pairs, else the collected map. */
  function GetMapOf(pairs: Option<seq<NameValuePair>>, asWritten: bool): (m: map<string, InputValue>)
    ensures pairs.None? || |pairs.value| == 0 ==> m == map[]
  {
    if pairs.None? || |pairs.value| == 0 then map[] else Collected(pairs.value, asWritten)
  }

  /**
   * getMap: one loop over the pairs, updating the map in place.  With asWritten the
   * second value of a name starts a List of that value alone, as the code does; without
   * it the List also holds the first value.
   */
  method GetMap(pairs: Option<seq<NameValuePair>>, asWritten: bool) returns (m: map<string, InputValue>)
    ensures m == GetMapOf(pairs, asWritten)
    ensures pairs.None? || |pairs.value| == 0 ==> m == map[]
  {
    if pairs.None? || |pairs.value| == 0 {
      return map[];
    }
    var ps := pairs.value;
    m := map[];
    var i := 0;
    while i < |ps|
      invariant 0 <= i <= |ps|
      invariant m == Collected(ps[..i], asWritten)
    {
      var p := ps[i];
      if !(p.name in m) || m[p.name] == Scalar(None) {
        m := m[p.name := Scalar(p.value)];
      } else {
        var o := m[p.name];
        if o.Elements? {
          m := m[p.name := Elements(o.items + [p.value])];
        } else if o.Scalar? && !asWritten {
          m := m[p.name := Elements([o.value, p.value])];
        } else {
          m := m[p.name := Elements([p.value])];
        }
      }
      assert ps[..i + 1][..i] == ps[..i];
      i := i + 1;
    }
    assert ps[..i] == ps;
  }

  /** The values an entry of getMap's map stands for: one String, or a List's elements. */
  function StoredValues(v: InputValue): seq<Option<string>>
  {
    match v
    case Scalar(x) => [x]
    case Elements(items) => items
    case _ => []
  }

  lemma {:induction false} PairValuesNonNull(pairs: seq<NameValuePair>, key: string)
    requires NoNullValues(pairs)
    ensures forall i :: 0 <= i < |PairValues(pairs, key)| ==> PairValues(pairs, key)[i].Some?
  {
    if |pairs| > 0 {
      PairValuesNonNull(pairs[..|pairs| - 1], key);
    }
  }

  /** Corrected getMap keeps every value of a name, in order; a single value stays a String. */
  lemma {:induction false} CollectedKeepsEveryValue(pairs: seq<NameValuePair>, key: string)
    requires NoNullValues(pairs)
    ensures key in Collected(pairs, false) <==> |PairValues(pairs, key)| > 0
    ensures key in Collected(pairs, false) ==>
      StoredValues(Collected(pairs, false)[key]) == PairValues(pairs, key) &&
      (Collected(pairs, false)[key].Scalar? <==> |PairValues(pairs, key)| == 1) &&
      (Collected(pairs, false)[key].Scalar? || Collected(pairs, false)[key].Elements?)
  {
    if |pairs| > 0 {
      var init := pairs[..|pairs| - 1];
      var p := pairs[|pairs| - 1];
      assert NoNullValues(init) by {
        forall i | 0 <= i < |init| ensures init[i].value.Some? {
          assert init[i] == pairs[i];
        }
      }
      CollectedKeepsEveryValue(init, key);
      PairValuesNonNull(init, key);
      var before := Collected(init, false);
      if p.name == key && key in before {
        assert StoredValues(before[key])[0].Some?;
      }
    }
  }

  /**
   * getMap as written keeps a lone value, but a second value of a name replaces the
   * first: what remains is every value but the first.
   */
  lemma {:induction false} CollectedAsWrittenDropsFirst(pairs: seq<NameValuePair>, key: string)
    requires NoNullValues(pairs)
    ensures key in Collected(pairs, true) <==> |PairValues(pairs, key)| > 0
    ensures |PairValues(pairs, key)| == 1 ==> Collected(pairs, true)[key] == Scalar(PairValues(pairs, key)[0])
    ensures |PairValues(pairs, key)| >= 2 ==> Collected(pairs, true)[key] == Elements(PairValues(pairs, key)[1..])
  {
    if |pairs| > 0 {
      var init := pairs[..|pairs| - 1];
      var p := pairs[|pairs| - 1];
      assert NoNullValues(init) by {
        forall i | 0 <= i < |init| ensures init[i].value.Some? {
          assert init[i] == pairs[i];
        }
      }
      CollectedAsWrittenDropsFirst(init, key);
      PairValuesNonNull(init, key);
      var pv := PairValues(init, key);
      if p.name == key && |pv| >= 2 {
        assert (pv + [p.value])[1..] == pv[1..] + [p.value];
      }
    }
  }

  /** Two values of one header: getMap as written keeps only the second. */
  lemma GetMapAsWrittenLosesFirstValue()
    ensures GetMapOf(Some([NameValuePair("a", Some("1")), NameValuePair("a", Some("2"))]), true) ==
            map["a" := Elements([Some("2")])]
    ensures GetMapOf(Some([NameValuePair("a", Some("1")), NameValuePair("a", Some("2"))]), false) ==
            map["a" := Elements([Some("1"), Some("2")])]
  {
    var pairs := [NameValuePair("a", Some("1")), NameValuePair("a", Some("2"))];
    assert pairs[..1] == [NameValuePair("a", Some("1"))];
    assert pairs[..1][..0] == [];
    var first := map["a" := Scalar(Some("1"))];
    assert Collected(pairs[..1], true) == first;
    assert Collected(pairs[..1], false) == first;
    assert Holds(first, "a");
    assert Collected(pairs, true) == first["a" := Elements([Some("2")])];
    assert Collected(pairs, false) == first["a" := Elements([Some("1"), Some("2")])];
  }

  /** The values of a header, null as "", as the response's header holds them. */
  function Unwrapped(values: seq<Option<string>>): (r: seq<string>)
    ensures |r| == |values|
    ensures forall i :: 0 <= i < |values| ==> r[i] == values[i].GetOr("")
  {
    seq(|values|, i requires 0 <= i < |values| => values[i].GetOr(""))
  }

  /**
   * With the corrected getMap, the response carries every value of every response
   * header under its name, in order, and addHeaders finds no null element to throw on.
   */
  lemma ResponseHeadersHoldEveryValue(pairs: seq<NameValuePair>, key: string)
    requires NoNullValues(pairs)
    ensures !AnyNullElement(GetMapOf(Some(pairs), false))
    ensures key in ConvertedMap(GetMapOf(Some(pairs), false)) <==> |PairValues(pairs, key)| > 0
    ensures key in ConvertedMap(GetMapOf(Some(pairs), false)) ==>
      ConvertedMap(GetMapOf(Some(pairs), false))[key].values == Unwrapped(PairValues(pairs, key))
  {
    CollectedHasNoNullElement(pairs);
    if |pairs| > 0 {
      var m := Collected(pairs, false);
      CollectedKeepsEveryValue(pairs, key);
      if key in m {
        var pv := PairValues(pairs, key);
        var nv := Converted(key, m[key]);
        assert nv.values == CopiedValues(Some(StoredValues(m[key])));
        assert CopiedValues(Some(pv)) == Unwrapped(pv);
      }
    }
  }

  /**
   * With getMap as written, the response carries a name's lone value, but for a name with
   * several values only the second and later ones; addHeaders still finds no null to throw on.
   */
  lemma ResponseHeadersAsWritten(pairs: seq<NameValuePair>, key: string)
    requires NoNullValues(pairs)
    ensures !AnyNullElement(GetMapOf(Some(pairs), true))
    ensures key in ConvertedMap(GetMapOf(Some(pairs), true)) <==> |PairValues(pairs, key)| > 0
    ensures key in ConvertedMap(GetMapOf(Some(pairs), true)) ==>
      ConvertedMap(GetMapOf(Some(pairs), true))[key].values ==
        Unwrapped(if |PairValues(pairs, key)| == 1 then PairValues(pairs, key) else PairValues(pairs, key)[1..])
  {
    if |pairs| > 0 {
      var m := Collected(pairs, true);
      forall k | k in m ensures !HasNullElement(m[k]) {
        CollectedAsWrittenDropsFirst(pairs, k);
        PairValuesNonNull(pairs, k);
      }
      CollectedAsWrittenDropsFirst(pairs, key);
      if key in m {
        var pv := PairValues(pairs, key);
        var kept := if |pv| == 1 then pv else pv[1..];
        var nv := Converted(key, m[key]);
        assert nv.values == CopiedValues(Some(kept));
        assert CopiedValues(Some(kept)) == Unwrapped(kept);
      }
    }
  }

  /** No collected List holds a null, so addHeaders does not throw. */
  lemma CollectedHasNoNullElement(pairs: seq<NameValuePair>)
    requires NoNullValues(pairs)
    ensures !AnyNullElement(GetMapOf(Some(pairs), false))
  {
    if |pairs| > 0 {
      var m := Collected(pairs, false);
      forall k | k in m ensures !HasNullElement(m[k]) {
        CollectedKeepsEveryValue(pairs, k);
        PairValuesNonNull(pairs, k);
      }
    }
  }

  /** A name has values exactly when some pair carries that name. */
  lemma {:induction false} PairValuesNonEmpty(pairs: seq<NameValuePair>, key: string)
    ensures |PairValues(pairs, key)| > 0 <==> exists i :: 0 <= i < |pairs| && pairs[i].name == key
  {
    if |pairs| > 0 {
      var init := pairs[..|pairs| - 1];
      PairValuesNonEmpty(init, key);
      if exists i :: 0 <= i < |pairs| && pairs[i].name == key {
        var i :| 0 <= i < |pairs| && pairs[i].name == key;
        if i < |init| {
          assert init[i] == pairs[i];
        }
      }
      if exists i :: 0 <= i < |init| && init[i].name == key {
        var i :| 0 <= i < |init| && init[i].name == key;
        assert pairs[i] == init[i];
      }
    }
  }

  /**
   * createMap keeps each name as the server sent it, and the response looks a header up
   * under the lower-cased name only: with either grouping, a header is found exactly when
   * some pair carries the lower-cased name itself.
   */
  lemma ResponseFindsOnlyLowerCaseNames(pairs: seq<NameValuePair>, asWritten: bool, r: Response, name: string)
    requires NoNullValues(pairs)
    requires r.headers == ConvertedMap(GetMapOf(Some(pairs), asWritten))
    ensures r.GetHeaderValue(name).Some? <==> exists i :: 0 <= i < |pairs| && pairs[i].name == ToLower(name)
  {
    PairValuesNonEmpty(pairs, ToLower(name));
    if asWritten {
      CollectedAsWrittenDropsFirst(pairs, ToLower(name));
    } else {
      CollectedKeepsEveryValue(pairs, ToLower(name));
    }
  }

  /** As written: a response whose only header is "Content-Type: text/html" has no content type. */
  lemma ContentTypeLostAsWritten(r: Response)
    requires r.headers == ConvertedMap(GetMapOf(Some([NameValuePair("Content-Type", Some("text/html"))]), true))
    ensures r.GetHeaderValue("Content-Type").None?
    ensures r.GetContentType().None?
  {
    var pairs := [NameValuePair("Content-Type", Some("text/html"))];
    ResponseFindsOnlyLowerCaseNames(pairs, true, r, "Content-Type");
    assert ToLower("Content-Type")[0] == 'c';
  }

  /**
   * Corrected: when createMap lower-cases its keys as documented, every response header is
   * found under its name in any letter case.
   */
  lemma ResponseFindsAnyCaseWhenKeysLowerCased(pairs: seq<NameValuePair>, r: Response, name: string)
    requires NoNullValues(pairs)
    requires LowerKeyed(GetMapOf(Some(pairs), false), r.headers)
    ensures r.GetHeaderValue(name).Some? <==>
      exists i :: 0 <= i < |pairs| && ToLower(pairs[i].name) == ToLower(name)
  {
    var m := GetMapOf(Some(pairs), false);
    LowerKeyedLookup(m, r.headers, name);
    if exists i :: 0 <= i < |pairs| && ToLower(pairs[i].name) == ToLower(name) {
      var i :| 0 <= i < |pairs| && ToLower(pairs[i].name) == ToLower(name);
      var k := pairs[i].name;
      PairValuesNonEmpty(pairs, k);
      CollectedKeepsEveryValue(pairs, k);
      assert k in m;
    }
    if ToLower(name) in r.headers {
      var k :| k in m && ToLower(k) == ToLower(name);
      PairValuesNonEmpty(pairs, k);
      CollectedKeepsEveryValue(pairs, k);
    }
  }

  /** Corrected: the same response, with lower-cased keys, reports its content type. */
  lemma ContentTypeFoundWhenKeysLowerCased(r: Response)
    requires LowerKeyed(GetMapOf(Some([NameValuePair("Content-Type", Some("text/html"))]), false), r.headers)
    ensures r.GetHeaderValue("Content-Type") == Some("text/html")
    ensures r.GetContentType() == Some("text/html")
  {
    var m := GetMapOf(Some([NameValuePair("Content-Type", Some("text/html"))]), false);
    assert m == map["Content-Type" := Scalar(Some("text/html"))];
    LowerKeyedLookup(m, r.headers, "Content-Type");
  }

  // ---------------------------------------------------------------------------
  // The request side of send

  /** HttpMethodBase.setRequestHeader, first half: every header of that name, in any case, removed. */
  function WithoutName(hs: seq<(string, string)>, name: string): seq<(string, string)>
  {
    if |hs| == 0 then []
    else
      var h := hs[|hs| - 1];
      WithoutName(hs[..|hs| - 1], name) + (if ToLower(h.0) != ToLower(name) then [h] else [])
  }

  /** Exactly the headers of other names remain. */
  lemma {:induction false} WithoutNameContents(hs: seq<(string, string)>, name: string)
    ensures forall h :: h in WithoutName(hs, name) <==> h in hs && ToLower(h.0) != ToLower(name)
  {
    if |hs| > 0 {
      var init := hs[..|hs| - 1];
      WithoutNameContents(init, name);
      assert hs == init + [hs[|hs| - 1]];
    }
  }

  /** setRequestHeader(name, value): the earlier headers of that name replaced by the new one. */
  function SetRequestHeader(hs: seq<(string, string)>, pair: (string, string)): seq<(string, string)>
  {
    WithoutName(hs, pair.0) + [pair]
  }

  /** setRequestHeader once per pair, in order. */
  function SetAll(hs: seq<(string, string)>, pairs: seq<(string, string)>): seq<(string, string)>
  {
    if |pairs| == 0 then hs
    else SetRequestHeader(SetAll(hs, pairs[..|pairs| - 1]), pairs[|pairs| - 1])
  }

  /** The last header whose name equals name ignoring case. */
  function LastNamed(hs: seq<(string, string)>, name: string): (r: Option<(string, string)>)
    ensures r.Some? ==> r.value in hs && ToLower(r.value.0) == ToLower(name)
  {
    if |hs| == 0 then None
    else if ToLower(hs[|hs| - 1].0) == ToLower(name) then Some(hs[|hs| - 1])
    else LastNamed(hs[..|hs| - 1], name)
  }

  /** At most one header per name, ignoring case. */
  predicate UniqueNames(hs: seq<(string, string)>)
  {
    forall i, j :: 0 <= i < j < |hs| ==> ToLower(hs[i].0) != ToLower(hs[j].0)
  }

  lemma {:induction false} WithoutNameLookup(hs: seq<(string, string)>, name: string, other: string)
    requires ToLower(other) != ToLower(name)
    ensures LastNamed(WithoutName(hs, name), other) == LastNamed(hs, other)
  {
    if |hs| > 0 {
      var init := hs[..|hs| - 1];
      var h := hs[|hs| - 1];
      WithoutNameLookup(init, name, other);
      var wi := WithoutName(init, name);
      if ToLower(h.0) != ToLower(name) {
        var w := wi + [h];
        assert WithoutName(hs, name) == w;
        assert w[..|w| - 1] == wi;
        if ToLower(h.0) != ToLower(other) {
          assert LastNamed(w, other) == LastNamed(wi, other);
        }
      } else {
        assert WithoutName(hs, name) == wi + [];
        assert wi + [] == wi;
        assert LastNamed(hs, other) == LastNamed(init, other);
      }
    }
  }

  /** After setRequestHeader a lookup of that name finds the new header; other names are unaffected. */
  lemma SetRequestHeaderLookup(hs: seq<(string, string)>, pair: (string, string), other: string)
    ensures LastNamed(SetRequestHeader(hs, pair), other) ==
            if ToLower(other) == ToLower(pair.0) then Some(pair) else LastNamed(hs, other)
  {
    var w := WithoutName(hs, pair.0);
    assert (w + [pair])[..|w|] == w;
    if ToLower(other) != ToLower(pair.0) {
      WithoutNameLookup(hs, pair.0, other);
    }
  }

  lemma {:induction false} WithoutNameUnique(hs: seq<(string, string)>, name: string)
    requires UniqueNames(hs)
    ensures UniqueNames(WithoutName(hs, name))
  {
    if |hs| > 0 {
      var init := hs[..|hs| - 1];
      var h := hs[|hs| - 1];
      assert UniqueNames(init) by {
        forall i, j | 0 <= i < j < |init| ensures ToLower(init[i].0) != ToLower(init[j].0) {
          assert init[i] == hs[i] && init[j] == hs[j];
        }
      }
      WithoutNameUnique(init, name);
      if ToLower(h.0) != ToLower(name) {
        var w := WithoutName(init, name);
        WithoutNameContents(init, name);
        forall i | 0 <= i < |w| ensures ToLower(w[i].0) != ToLower(h.0) {
          assert w[i] in init;
          var k :| 0 <= k < |init| && init[k] == w[i];
          assert hs[k] == init[k];
        }
      }
    }
  }

  /** setRequestHeader never leaves two headers of one name. */
  lemma SetRequestHeaderUnique(hs: seq<(string, string)>, pair: (string, string))
    requires UniqueNames(hs)
    ensures UniqueNames(SetRequestHeader(hs, pair))
  {
    WithoutNameUnique(hs, pair.0);
    WithoutNameContents(hs, pair.0);
    var w := WithoutName(hs, pair.0);
    forall i | 0 <= i < |w| ensures ToLower(w[i].0) != ToLower(pair.0) {
      assert w[i] in w;
    }
  }

  /**
   * Setting a sequence of headers: a name set at least once ends with its last value;
   * any other name keeps what it had; and names stay unique.
   */
  lemma {:induction false} SetAllLookup(hs: seq<(string, string)>, pairs: seq<(string, string)>, name: string)
    ensures LastNamed(SetAll(hs, pairs), name) ==
            if LastNamed(pairs, name).Some? then LastNamed(pairs, name) else LastNamed(hs, name)
    ensures UniqueNames(hs) ==> UniqueNames(SetAll(hs, pairs))
  {
    if |pairs| > 0 {
      var init := pairs[..|pairs| - 1];
      SetAllLookup(hs, init, name);
      SetRequestHeaderLookup(SetAll(hs, init), pairs[|pairs| - 1], name);
      if UniqueNames(hs) {
        SetRequestHeaderUnique(SetAll(hs, init), pairs[|pairs| - 1]);
      }
    }
  }

  /** Guava's Strings.isNullOrEmpty. */
  predicate IsNullOrEmpty(s: Option<string>)
  {
    s.None? || |s.value| == 0
  }

  /** The client's User-Agent is set only when the request's User-Agent is null or empty. */
  predicate SetsUserAgent(userAgent: Option<string>, request: Request)
  {
    userAgent.Some? && IsNullOrEmpty(GetHeaderValue(request, "User-Agent"))
  }

  /** The headers on the method once the User-Agent rule has run, before the request's own. */
  function UserAgentHeaders(userAgent: Option<string>, request: Request): seq<(string, string)>
  {
    if SetsUserAgent(userAgent, request) then [("User-Agent", userAgent.value)] else []
  }

  /**
   * The User-Agent sent: the request's own last User-Agent value when it has one (even
   * an empty one, which then replaces the client's), else the client's when the rule
   * sets it, else none.
   */
  lemma UserAgentSent(userAgent: Option<string>, request: Request, pairs: seq<(string, string)>)
    ensures LastNamed(SetAll(UserAgentHeaders(userAgent, request), pairs), "User-Agent") ==
      if LastNamed(pairs, "User-Agent").Some? then LastNamed(pairs, "User-Agent")
      else if SetsUserAgent(userAgent, request) then Some(("User-Agent", userAgent.value))
      else None
    ensures UniqueNames(SetAll(UserAgentHeaders(userAgent, request), pairs))
  {
    var ua := UserAgentHeaders(userAgent, request);
    SetAllLookup(ua, pairs, "User-Agent");
    if |ua| > 0 {
      assert ua[..0] == [];
    }
  }

  /** The HttpMethod send prepares, by its class and what is set on it. */
  datatype HttpMethod = HttpMethod(
    requestMethod: Method,
    uri: Uri,
    followRedirects: Option<bool>,
    entity: Option<seq<byte>>,
    parameters: seq<(string, string)>,
    headers: seq<(string, string)>)

  /** Setting a + b is setting a, then b. */
  lemma {:induction false} SetAllAppend(hs: seq<(string, string)>, a: seq<(string, string)>, b: seq<(string, string)>)
    ensures SetAll(hs, a + b) == SetAll(SetAll(hs, a), b)
  {
    if |b| == 0 {
      assert a + b == a;
    } else {
      var init := b[..|b| - 1];
      assert (a + b)[..|a + b| - 1] == a + init;
      SetAllAppend(hs, a, init);
    }
  }

  /** The inner loop of the header copy: one setRequestHeader per value of one header. */
  method SetValues(hs0: seq<(string, string)>, h: Header) returns (hs: seq<(string, string)>)
    ensures hs == SetAll(hs0, ValuePairs(h))
  {
    hs := hs0;
    ghost var vp := ValuePairs(h);
    var j := 0;
    while j < |h.values|
      invariant 0 <= j <= |h.values|
      invariant hs == SetAll(hs0, vp[..j])
    {
      assert vp[..j + 1][..j] == vp[..j];
      hs := SetRequestHeader(hs, (h.name, h.values[j]));
      j := j + 1;
    }
    assert vp[..j] == vp;
  }

  /** The request headers, one setRequestHeader per value of each header. */
  method SetHeaders(hs0: seq<(string, string)>, headers: seq<Header>) returns (hs: seq<(string, string)>)
    ensures hs == SetAll(hs0, HeaderPairs(headers))
  {
    hs := hs0;
    var i := 0;
    while i < |headers|
      invariant 0 <= i <= |headers|
      invariant hs == SetAll(hs0, HeaderPairs(headers[..i]))
    {
      SetAllAppend(hs0, HeaderPairs(headers[..i]), ValuePairs(headers[i]));
      assert headers[..i + 1][..i] == headers[..i];
      hs := SetValues(hs, headers[i]);
      i := i + 1;
    }
    assert headers[..i] == headers;
  }

  /**
   * The method switch of send for the methods it has a case for: GET and HEAD follow
   * redirects as the options say; POST and PUT carry the body as an entity, and a POST
   * without a body carries every parameter value.
   */
  method SwitchParts(request: Request, parameterOrder: seq<string>, options: RequestOptions)
    returns (followRedirects: Option<bool>, entity: Option<seq<byte>>, parameters: seq<(string, string)>)
    requires IsKeyOrder(request.parameters, parameterOrder)
    requires request.requestMethod != PATCH && request.requestMethod != OPTIONS
    ensures followRedirects ==
      (if request.requestMethod == GET || request.requestMethod == HEAD then Some(options.followRedirects) else None)
    ensures entity == (if request.requestMethod == POST || request.requestMethod == PUT then request.body else None)
    ensures parameters ==
      (if request.requestMethod == POST && request.body.None?
       then HeaderPairs(ValuesInOrder(request.parameters, parameterOrder)) else [])
  {
    followRedirects := None;
    entity := None;
    parameters := [];
    match request.requestMethod {
      case GET =>
        followRedirects := Some(options.followRedirects);
      case DELETE =>
      case HEAD =>
        followRedirects := Some(options.followRedirects);
      case POST =>
        if request.body.Some? {
          entity := request.body;
        } else {
          parameters := AppendPairs([], ValuesInOrder(request.parameters, parameterOrder));
        }
      case PUT =>
        if request.body.Some? {
          entity := request.body;
        }
    }
  }

  /**
   * send up to executeMethod, with the parameter and header maps iterated in the given
   * key orders.  Every method is built from the request's URI; PATCH and OPTIONS have no
   * case in the switch, so the null method throws.
   */
  method PrepareMethod(request: Request, parameterOrder: seq<string>, headerOrder: seq<string>,
                       options: RequestOptions, userAgent: Option<string>) returns (r: Result<HttpMethod>)
    requires IsKeyOrder(request.parameters, parameterOrder)
    requires IsKeyOrder(request.headers, headerOrder)
    ensures request.requestMethod == PATCH || request.requestMethod == OPTIONS ==> r == Failure(NullPointerException)
    ensures request.requestMethod != PATCH && request.requestMethod != OPTIONS ==>
      r.Success? && r.value.requestMethod == request.requestMethod && r.value.uri == request.uri &&
      r.value.followRedirects ==
        (if request.requestMethod == GET || request.requestMethod == HEAD then Some(options.followRedirects) else None) &&
      r.value.entity ==
        (if request.requestMethod == POST || request.requestMethod == PUT then request.body else None) &&
      r.value.parameters ==
        (if request.requestMethod == POST && request.body.None?
         then HeaderPairs(ValuesInOrder(request.parameters, parameterOrder)) else []) &&
      r.value.headers == SetAll(UserAgentHeaders(userAgent, request), HeaderPairs(ValuesInOrder(request.headers, headerOrder)))
  {
    if request.requestMethod == PATCH || request.requestMethod == OPTIONS {
      return Failure(NullPointerException);
    }
    var followRedirects, entity, parameters := SwitchParts(request, parameterOrder, options);
    var headers: seq<(string, string)> := [];
    if userAgent.Some? && IsNullOrEmpty(GetHeaderValue(request, "User-Agent")) {
      headers := SetRequestHeader(headers, ("User-Agent", userAgent.value));
      assert headers == SetAll([("User-Agent", userAgent.value)], []);
    }
    headers := SetHeaders(headers, ValuesInOrder(request.headers, headerOrder));
    r := Success(HttpMethod(request.requestMethod, request.uri, followRedirects, entity, parameters, headers));
  }

  // ---------------------------------------------------------------------------
  // The response side of send

  /**
   * The rest of send once executeMethod has returned the status code: the body stream
   * (null when there is none) is read up to the limit and closed, a failure to close
   * being ignored; the headers go through getMap and addHeaders; an empty body becomes
   * no body.  A failing read or addHeaders propagates out of send.  With asWritten the
   * headers are grouped by getMap as the code has it, otherwise by the corrected getMap.
   */
  method BuildResponse(responseCode: int, bodyStream: Option<InputStream>,
                       responseHeaders: Option<seq<NameValuePair>>, maxResponseBytes: int, asWritten: bool)
    returns (r: Result<Response>)
    ensures bodyStream.Some? && BodyFromInputStream(bodyStream.value, maxResponseBytes).Failure? ==>
      r == Failure(BodyFromInputStream(bodyStream.value, maxResponseBytes).error)
    ensures (bodyStream.None? || BodyFromInputStream(bodyStream.value, maxResponseBytes).Success?) &&
            AnyNullElement(GetMapOf(responseHeaders, asWritten)) ==>
      r == Failure(NullPointerException)
    ensures (bodyStream.None? || BodyFromInputStream(bodyStream.value, maxResponseBytes).Success?) &&
            !AnyNullElement(GetMapOf(responseHeaders, asWritten)) ==>
      r.Success? && fresh(r.value) && r.value.statusCode == responseCode &&
      r.value.headers == ConvertedMap(GetMapOf(responseHeaders, asWritten)) &&
      r.value.body == Held(if bodyStream.Some? && |bodyStream.value.content| > 0
                           then Some(bodyStream.value.content) else None) &&
      r.value.attributes.None? && r.value.stats.None? && r.value.timing.None?
  {
    var builder := new ResponseBuilder();
    builder.SetStatusCode(responseCode);
    if bodyStream.Some? {
      var read := BodyFromInputStream(bodyStream.value, maxResponseBytes);
      if read.Failure? {
        return Failure(read.error);
      }
      var collected := GetMap(responseHeaders, asWritten);
      var thrown := builder.AddHeaderMap(Some(collected));
      if thrown.Some? {
        return Failure(thrown.value);
      }
      if |read.value| != 0 {
        var body := new byte[|read.value|](i requires 0 <= i < |read.value| => read.value[i]);
        assert body[..] == read.value;
        builder.SetBody(body);
      }
    } else {
      var collected := GetMap(responseHeaders, asWritten);
      var thrown := builder.AddHeaderMap(Some(collected));
      if thrown.Some? {
        return Failure(thrown.value);
      }
    }
    assert builder.headers == ConvertedMap(GetMapOf(responseHeaders, asWritten));
    var response := builder.Create();
    r := Success(response);
  }
}
