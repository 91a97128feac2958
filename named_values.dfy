/**
 * Multi-valued names: ImmutableNamedValues with its two concrete kinds, Header and
 * Parameter, and the list-based helpers of NamedValues.  A Java null is None.
 */
module NamedValues {
  import opened Wrappers
  import opened JavaText

  /** A name with its values. */
  datatype ImmutableNamedValues = ImmutableNamedValues(name: string, values: seq<string>)

  /** Every constructor leaves at least one value, so getValue always finds element 0. */
  type NamedValue = nv: ImmutableNamedValues | |nv.values| > 0 witness ImmutableNamedValues("", [""])

  /** An HTTP header; Header extends ImmutableNamedValues without adding state. */
  type Header = NamedValue

  /** A request parameter; Parameter extends ImmutableNamedValues without adding state. */
  type Parameter = NamedValue

  /** The values array a single-valued constructor stores. */
  function SingleValues(value: Option<string>): seq<string>
  {
    if value.Some? && |value.value| > 0 then [value.value] else [""]
  }

  /** The single-valued constructor (name, value) of Header and Parameter. */
  function FromValue(name: string, value: Option<string>): (nv: NamedValue)
    ensures nv.name == name
    ensures value.Some? ==> nv.values == [value.value]
    ensures value.None? ==> nv.values == [""]
  {
    ImmutableNamedValues(name, SingleValues(value))
  }

  /** The array copyValues returns: [""] for a null or empty input, nulls replaced by "". */
  function CopiedValues(values: Option<seq<Option<string>>>): seq<string>
  {
    if values.None? || |values.value| == 0 then [""]
    else seq(|values.value|, i requires 0 <= i < |values.value| => values.value[i].GetOr(""))
  }

  lemma CopiedValuesShape(values: Option<seq<Option<string>>>)
    ensures |CopiedValues(values)| > 0
    ensures values.Some? && |values.value| > 0 ==>
      |CopiedValues(values)| == |values.value| &&
      forall i :: 0 <= i < |values.value| ==>
        CopiedValues(values)[i] == (if values.value[i].Some? then values.value[i].value else "")
    ensures values.None? || |values.value| == 0 ==> CopiedValues(values) == [""]
  {
  }

  /** ImmutableNamedValues.copyValues: fills a new array element by element. */
  method CopyValues(values: Option<seq<Option<string>>>) returns (r: seq<string>)
    ensures r == CopiedValues(values)
  {
    if values.None? || |values.value| == 0 {
      return [""];
    }
    var input := values.value;
    var a := new string[|input|];
    var i := 0;
    while i < |input|
      invariant 0 <= i <= |input|
      invariant forall k :: 0 <= k < i ==> a[k] == input[k].GetOr("")
    {
      a[i] := if input[i].Some? then input[i].value else "";
      i := i + 1;
    }
    r := a[..];
  }

  /** The multi-valued constructor (name, String[]) of Header and Parameter. */
  function FromValues(name: string, values: Option<seq<Option<string>>>): (nv: NamedValue)
    ensures nv.name == name && nv.values == CopiedValues(values)
  {
    CopiedValuesShape(values);
    ImmutableNamedValues(name, CopiedValues(values))
  }

  /** getValue: the first value. */
  function GetValue(nv: NamedValue): (v: string)
    ensures v == nv.values[0] && v in nv.values
  {
    nv.values[0]
  }

  /** The first value is the one the constructors were given first ("" for none or null); appending keeps it. */
  lemma FirstValue(name: string, value: Option<string>, values: seq<Option<string>>, nv: NamedValue, more: Option<string>)
    ensures GetValue(FromValue(name, value)) == value.GetOr("")
    ensures GetValue(FromValues(name, Some(values))) == if |values| == 0 then "" else values[0].GetOr("")
    ensures GetValue(AddValue(nv, more)) == GetValue(nv)
  {
  }

  /** getValues: a fresh copy of the values array. */
  method GetValues(nv: ImmutableNamedValues) returns (a: array<string>)
    ensures fresh(a) && a[..] == nv.values
  {
    a := new string[|nv.values|](i requires 0 <= i < |nv.values| => nv.values[i]);
  }

  /** addValue: a new instance whose values are the old ones followed by the new one. */
  function AddValue(nv: NamedValue, value: Option<string>): (r: NamedValue)
    ensures r.name == nv.name
    ensures r.values == nv.values + [value.GetOr("")]
  {
    var extended := seq(|nv.values|, i requires 0 <= i < |nv.values| => Some(nv.values[i])) + [value];
    CopiedValuesShape(Some(extended));
    var r := FromValues(nv.name, Some(extended));
    assert r.values == nv.values + [value.GetOr("")];
    r
  }

  /**
   * The header map after a builder's addHeader(name, value): the entry under the
   * lower-cased name gains the value, or is created with the name as given.
   */
  function AddedHeader(headers: map<string, Header>, name: string, value: Option<string>): (r: map<string, Header>)
    ensures r.Keys == headers.Keys + {ToLower(name)}
    ensures forall k :: k in headers && k != ToLower(name) ==> r[k] == headers[k]
    ensures ToLower(name) in headers ==>
      r[ToLower(name)].values == headers[ToLower(name)].values + [value.GetOr("")] &&
      r[ToLower(name)].name == headers[ToLower(name)].name
    ensures ToLower(name) !in headers ==> r[ToLower(name)] == ImmutableNamedValues(name, [value.GetOr("")])
  {
    var key := ToLower(name);
    headers[key := if key in headers then AddValue(headers[key], value) else FromValue(name, value)]
  }

  /** The headers after putting each one under its own name; a later name replaces an earlier one. */
  function PutByName(m: map<string, Header>, hs: seq<Header>): map<string, Header>
  {
    if |hs| == 0 then m
    else PutByName(m, hs[..|hs| - 1])[hs[|hs| - 1].name := hs[|hs| - 1]]
  }

  /** A key is present after the puts iff it was before or some header bears that name. */
  lemma {:induction false} PutByNameKeys(m: map<string, Header>, hs: seq<Header>, k: string)
    ensures k in PutByName(m, hs) <==> k in m || exists i :: 0 <= i < |hs| && hs[i].name == k
  {
    if |hs| > 0 {
      var init := hs[..|hs| - 1];
      PutByNameKeys(m, init, k);
      if k != hs[|hs| - 1].name {
        if exists i :: 0 <= i < |hs| && hs[i].name == k {
          var i :| 0 <= i < |hs| && hs[i].name == k;
          assert init[i] == hs[i];
        }
        if exists i :: 0 <= i < |init| && init[i].name == k {
          var i :| 0 <= i < |init| && init[i].name == k;
          assert hs[i] == init[i];
        }
      }
    }
  }

  /** A key no header names keeps its old entry. */
  lemma {:induction false} PutByNameUntouched(m: map<string, Header>, hs: seq<Header>, k: string)
    requires k in m && forall i :: 0 <= i < |hs| ==> hs[i].name != k
    ensures k in PutByName(m, hs) && PutByName(m, hs)[k] == m[k]
  {
    if |hs| > 0 {
      var init := hs[..|hs| - 1];
      assert forall i :: 0 <= i < |init| ==> init[i] == hs[i];
      PutByNameUntouched(m, init, k);
    }
  }

  /** The last header of each name is the one stored under it. */
  lemma {:induction false} PutByNameLastWins(m: map<string, Header>, hs: seq<Header>, i: int)
    requires 0 <= i < |hs| && forall j :: i < j < |hs| ==> hs[j].name != hs[i].name
    ensures hs[i].name in PutByName(m, hs) && PutByName(m, hs)[hs[i].name] == hs[i]
  {
    if i < |hs| - 1 {
      var init := hs[..|hs| - 1];
      assert init[i] == hs[i];
      assert forall j :: i < j < |init| ==> init[j] == hs[j];
      PutByNameLastWins(m, init, i);
    }
  }

  /** toString: the name, ':' and the values separated by ','. */
  method ToString(nv: NamedValue) returns (s: string)
    ensures s == nv.name + ":" + Join(",", nv.values)
  {
    s := nv.name + ":" + nv.values[0];
    var i := 1;
    while i < |nv.values|
      invariant 1 <= i <= |nv.values|
      invariant s == nv.name + ":" + Join(",", nv.values[..i])
    {
      JoinSnoc(",", nv.values[..i], nv.values[i]);
      assert nv.values[..i + 1] == nv.values[..i] + [nv.values[i]];
      s := s + "," + nv.values[i];
      i := i + 1;
    }
    assert nv.values[..i] == nv.values;
  }

  /** The case folding of String.compareToIgnoreCase (ASCII letters only). */
  function FoldChar(c: char): char
  {
    LowerChar(UpperChar(c))
  }

  /** String.compareToIgnoreCase, which NameComparator applies to the two names. */
  function CompareIgnoreCase(a: string, b: string): int
  {
    if |a| == 0 || |b| == 0 then |a| - |b|
    else if FoldChar(a[0]) != FoldChar(b[0]) then FoldChar(a[0]) as int - FoldChar(b[0]) as int
    else CompareIgnoreCase(a[1..], b[1..])
  }

  lemma FoldIsLower(c: char)
    ensures FoldChar(c) == LowerChar(c)
  {
  }

  /** NameComparator.compare: names compare equal exactly when their lower-cased forms are equal. */
  lemma {:induction false} CompareZeroIffSameLowerCase(a: string, b: string)
    ensures CompareIgnoreCase(a, b) == 0 <==> ToLower(a) == ToLower(b)
  {
    if |a| > 0 && |b| > 0 {
      FoldIsLower(a[0]);
      FoldIsLower(b[0]);
      CompareZeroIffSameLowerCase(a[1..], b[1..]);
      var la, lb := ToLower(a), ToLower(b);
      assert la[0] == LowerChar(a[0]) && lb[0] == LowerChar(b[0]);
      assert la[1..] == ToLower(a[1..]) && lb[1..] == ToLower(b[1..]);
      if la == lb {
        assert la[1..] == lb[1..];
      }
      if la[0] == lb[0] && la[1..] == lb[1..] {
        assert la == [la[0]] + la[1..] && lb == [lb[0]] + lb[1..];
      }
    } else if |a| != |b| {
      assert |ToLower(a)| != |ToLower(b)|;
    }
  }

  /** NameComparator is antisymmetric: swapping the names negates the result. */
  lemma {:induction false} CompareAntisymmetric(a: string, b: string)
    ensures CompareIgnoreCase(a, b) == -CompareIgnoreCase(b, a)
  {
    if |a| > 0 && |b| > 0 && FoldChar(a[0]) == FoldChar(b[0]) {
      CompareAntisymmetric(a[1..], b[1..]);
    }
  }

  /** A value of the generic map that copyMap converts, by its runtime class. */
  datatype InputValue =
    | Named(nv: NamedValue)                   // already a Header or Parameter
    | Elements(items: seq<Option<string>>)    // a Collection: the elements' toString, null if absent
    | Strings(items: seq<Option<string>>)     // a String[]
    | Scalar(value: Option<string>)           // anything else (or null): its toString

  predicate HasNullElement(v: InputValue)
  {
    v.Elements? && exists i :: 0 <= i < |v.items| && v.items[i].None?
  }

  /** The named values copyMap stores for one entry that does not throw. */
  function Converted(key: string, v: InputValue): (nv: NamedValue)
  {
    match v
    case Named(nv) => nv
    case Elements(items) => FromValues(key, Some(items))
    case Strings(items) => FromValues(key, Some(items))
    case Scalar(value) => FromValues(key, Some([value]))
  }

  lemma ConvertedValues(key: string, v: InputValue)
    ensures v.Scalar? ==> Converted(key, v) == ImmutableNamedValues(key, [v.value.GetOr("")])
    ensures (v.Elements? || v.Strings?) && |v.items| == 0 ==> Converted(key, v) == ImmutableNamedValues(key, [""])
    ensures v.Named? ==> Converted(key, v) == v.nv
  {
  }

  /** True when some entry is a Collection holding a null, whose toString throws. */
  predicate AnyNullElement(input: map<string, InputValue>)
  {
    exists k :: k in input && HasNullElement(input[k])
  }

  /** The conversions of the entries whose keys are in done, over output. */
  function ConvertedOver(output: map<string, NamedValue>, m: map<string, InputValue>, done: set<string>): map<string, NamedValue>
  {
    output + map k | k in m && k in done :: Converted(k, m[k])
  }

  lemma ConvertedOverStep(output: map<string, NamedValue>, m: map<string, InputValue>, done: set<string>, k: string)
    requires k in m
    ensures ConvertedOver(output, m, done)[k := Converted(k, m[k])] == ConvertedOver(output, m, done + {k})
  {
  }

  /** Every entry of the generic map converted under its own key. */
  function ConvertedMap(m: map<string, InputValue>): map<string, NamedValue>
  {
    map k | k in m :: Converted(k, m[k])
  }

  lemma ConvertedOverAll(output: map<string, NamedValue>, m: map<string, InputValue>)
    ensures ConvertedOver(output, m, m.Keys) == output + ConvertedMap(m)
  {
    var a := map k | k in m && k in m.Keys :: Converted(k, m[k]);
    var b := map k | k in m :: Converted(k, m[k]);
    assert a.Keys == b.Keys;
    assert a == b;
  }

  /** The toString of each element of a Collection: true when none is null. */
  method NoNullElement(v: InputValue) returns (ok: bool)
    ensures ok <==> !HasNullElement(v)
  {
    if !v.Elements? {
      return true;
    }
    var i := 0;
    while i < |v.items|
      invariant 0 <= i <= |v.items|
      invariant forall j :: 0 <= j < i ==> v.items[j].Some?
    {
      if v.items[i].None? {
        return false;
      }
      i := i + 1;
    }
    return true;
  }

  /** copyMap: each key kept as given, each value converted; a null collection element throws. */
  method CopyMap(input: Option<map<string, InputValue>>, output: map<string, NamedValue>)
    returns (r: Result<map<string, NamedValue>>)
    ensures input.None? ==> r == Success(output)
    ensures input.Some? && AnyNullElement(input.value) ==> r == Failure(NullPointerException)
    ensures input.Some? && !AnyNullElement(input.value) ==>
      r == Success(output + ConvertedMap(input.value))
  {
    if input.None? {
      return Success(output);
    }
    var m := input.value;
    var out := output;
    var todo := m.Keys;
    ghost var done: set<string> := {};
    while todo != {}
      invariant todo <= m.Keys && done <= m.Keys
      invariant forall k :: k in m ==> (k in done <==> k !in todo)
      invariant forall k :: k in done ==> !HasNullElement(m[k])
      invariant out == ConvertedOver(output, m, done)
      decreases |todo|
    {
      var k :| k in todo;
      var ok := NoNullElement(m[k]);
      if !ok {
        assert k in m && HasNullElement(m[k]);
        return Failure(NullPointerException);
      }
      ConvertedOverStep(output, m, done, k);
      out := out[k := Converted(k, m[k])];
      done := done + {k};
      todo := todo - {k};
    }
    assert done == m.Keys;
    ConvertedOverAll(output, m);
    r := Success(out);
  }

  /**
   * Header.createMap and Parameter.createMap, which convert alike: an empty map for null,
   * otherwise copyMap into a new map.
   */
  method CreateMap(input: Option<map<string, InputValue>>) returns (r: Result<map<string, NamedValue>>)
    ensures input.None? ==> r == Success(map[])
    ensures input.Some? && AnyNullElement(input.value) ==> r == Failure(NullPointerException)
    ensures input.Some? && !AnyNullElement(input.value) ==>
      r == Success(ConvertedMap(input.value))
  {
    if input.None? {
      return Success(map[]);
    }
    r := CopyMap(input, map[]);
    ghost var converted := ConvertedMap(input.value);
    assert map[] + converted == converted;
  }

  /**
   * The map Header.createMap's documentation promises: every input key present in lower
   * case, each entry converted as copyMap converts it.  Input keys that differ only in case
   * collide, and which of them wins depends on the input map's iteration order, so only
   * "one of them" is stated.
   */
  ghost predicate LowerKeyed(input: map<string, InputValue>, out: map<string, NamedValue>)
  {
    (forall k :: k in input ==> ToLower(k) in out) &&
    (forall key :: key in out ==>
      exists k :: k in input && ToLower(k) == key && out[key] == Converted(k, input[k]))
  }

  /**
   * Header.createMap as documented, with the keys lower-cased: an empty map for null, a
   * null collection element throws, otherwise the lower-keyed conversion of every entry.
   */
  method CreateMapLowerCased(input: Option<map<string, InputValue>>) returns (r: Result<map<string, NamedValue>>)
    ensures input.None? ==> r == Success(map[])
    ensures input.Some? && AnyNullElement(input.value) ==> r == Failure(NullPointerException)
    ensures input.Some? && !AnyNullElement(input.value) ==> r.Success? && LowerKeyed(input.value, r.value)
  {
    if input.None? {
      return Success(map[]);
    }
    var m := input.value;
    var out: map<string, NamedValue> := map[];
    var todo := m.Keys;
    while todo != {}
      invariant todo <= m.Keys
      invariant forall k :: k in m && k !in todo ==> !HasNullElement(m[k]) && ToLower(k) in out
      invariant forall key :: key in out ==>
        exists k :: k in m && k !in todo && ToLower(k) == key && out[key] == Converted(k, m[k])
      decreases |todo|
    {
      var k :| k in todo;
      var ok := NoNullElement(m[k]);
      if !ok {
        return Failure(NullPointerException);
      }
      out := out[ToLower(k) := Converted(k, m[k])];
      todo := todo - {k};
    }
    r := Success(out);
  }

  /**
   * In a lower-keyed map, a lookup under the lower-cased name finds a header exactly when
   * the input had a key equal to the name ignoring case, and finds that key's conversion.
   */
  lemma LowerKeyedLookup(input: map<string, InputValue>, out: map<string, NamedValue>, name: string)
    requires LowerKeyed(input, out)
    ensures ToLower(name) in out <==> exists k :: k in input && ToLower(k) == ToLower(name)
    ensures ToLower(name) in out ==>
      exists k :: k in input && ToLower(k) == ToLower(name) && out[ToLower(name)] == Converted(k, input[k])
  {
  }

  /** The filter of NamedValues.copyValues: null and empty values dropped, order kept. */
  function Filtered(values: seq<Option<string>>): (r: seq<string>)
    ensures |r| <= |values|
    ensures forall i :: 0 <= i < |r| ==> r[i] != ""
  {
    if |values| == 0 then []
    else if values[|values| - 1].None? || values[|values| - 1].value == "" then Filtered(values[..|values| - 1])
    else Filtered(values[..|values| - 1]) + [values[|values| - 1].value]
  }

  /** The values as a list of non-null elements. */
  function Wrap(values: seq<string>): (r: seq<Option<string>>)
    ensures |r| == |values|
  {
    seq(|values|, i requires 0 <= i < |values| => Some(values[i]))
  }

  lemma {:induction false} FilteredKeepsNonEmpty(values: seq<string>)
    requires forall i :: 0 <= i < |values| ==> values[i] != ""
    ensures Filtered(Wrap(values)) == values
  {
    if |values| > 0 {
      var init := values[..|values| - 1];
      assert Wrap(values)[..|values| - 1] == Wrap(init);
      FilteredKeepsNonEmpty(init);
      assert values == init + [values[|values| - 1]];
    }
  }

  /** Copying the filtered list again changes nothing. */
  lemma FilterIdempotent(values: seq<Option<string>>)
    ensures Filtered(Wrap(Filtered(values))) == Filtered(values)
  {
    FilteredKeepsNonEmpty(Filtered(values));
  }

  /** NamedValues.copyValues(String[]): an empty list for null or empty input. */
  method CopyArrayValues(values: Option<seq<Option<string>>>) returns (r: seq<string>)
    ensures values.None? ==> r == []
    ensures values.Some? ==> r == Filtered(values.value)
  {
    if values.None? || |values.value| == 0 {
      return [];
    }
    r := FilterValues(values.value);
  }

  /** NamedValues.copyValues(Collection): an empty list for null. */
  method CopyCollectionValues(values: Option<seq<Option<string>>>) returns (r: seq<string>)
    ensures values.None? ==> r == []
    ensures values.Some? ==> r == Filtered(values.value)
  {
    if values.None? {
      return [];
    }
    r := FilterValues(values.value);
  }

  /** The builder loop shared by both copyValues overloads. */
  method FilterValues(values: seq<Option<string>>) returns (r: seq<string>)
    ensures r == Filtered(values)
  {
    r := [];
    var i := 0;
    while i < |values|
      invariant 0 <= i <= |values|
      invariant r == Filtered(values[..i])
    {
      assert values[..i + 1][..i] == values[..i];
      if values[i].Some? && values[i].value != "" {
        r := r + [values[i].value];
      }
      i := i + 1;
    }
    assert values[..i] == values;
  }

  /** NamedValues.toString(name, values): Joiner on ',' shows null as "[null]". */
  function ListToString(name: string, values: Option<seq<Option<string>>>): (s: string)
    ensures StartsWith(s, name + "=")
    ensures values.None? ==> s == name + "="
  {
    if values.None? then name + "="
    else name + "=" + Join(",", Shown(values.value))
  }

  /** Each value as the joiner writes it: a null as "[null]". */
  function Shown(values: seq<Option<string>>): (r: seq<string>)
    ensures |r| == |values|
    ensures forall i :: 0 <= i < |values| ==> r[i] == values[i].GetOr("[null]")
  {
    seq(|values|, i requires 0 <= i < |values| => values[i].GetOr("[null]"))
  }

  /** No non-null value contains ','. */
  predicate NoComma(values: seq<Option<string>>)
  {
    forall i :: 0 <= i < |values| && values[i].Some? ==> ',' !in values[i].value
  }

  /**
   * The text after name + "=" lists the values in order: empty for a null or empty list;
   * otherwise, when no value contains ',', splitting it at ',' gives back one piece per
   * value, "[null]" standing for null.
   */
  lemma ListToStringSplits(name: string, values: Option<seq<Option<string>>>)
    ensures values.None? || |values.value| == 0 ==> ListToString(name, values) == name + "="
    ensures values.Some? && |values.value| > 0 && NoComma(values.value) ==>
      Split(ListToString(name, values)[|name| + 1..], ',') == Shown(values.value)
  {
    if values.Some? && |values.value| > 0 && NoComma(values.value) {
      var shown := Shown(values.value);
      forall k | 0 <= k < |shown| ensures ',' !in shown[k] {
        if values.value[k].None? {
          assert shown[k] == "[null]";
        }
      }
      assert ListToString(name, values)[|name| + 1..] == Join([','], shown);
      SplitJoin(shown, ',');
    }
  }
}
