/**
 * Header fields as name/value pairs in arrival order, and the header map a
 * ResponseBuilder holds after addHeader(name, value) has been called for each of
 * them.  Jetty delivers its HttpFields this way; the ning and JDK clients' per-name
 * value lists are flattened into the same form, one field per value.
 */
module HeaderFields {
  import opened Wrappers
  import opened JavaText
  import opened NamedValues
  import opened Responses

  /** A header field: a name and a possibly null value. */
  datatype Field = Field(name: string, value: Option<string>)

  /** The header map after adding every field in order, by name and value. */
  function AddedFields(headers: map<string, Header>, fields: seq<Field>): map<string, Header>
  {
    if |fields| == 0 then headers
    else
      var f := fields[|fields| - 1];
      AddedHeader(AddedFields(headers, fields[..|fields| - 1]), f.name, f.value)
  }

  /** The values, null as "", of the fields whose lower-cased name is key, in order. */
  function ValuesUnder(fields: seq<Field>, key: string): seq<string>
  {
    if |fields| == 0 then []
    else
      var f := fields[|fields| - 1];
      ValuesUnder(fields[..|fields| - 1], key) + (if ToLower(f.name) == key then [f.value.GetOr("")] else [])
  }

  /** The names of the fields, lower-cased. */
  function LowerNames(fields: seq<Field>): set<string>
  {
    set i | 0 <= i < |fields| :: ToLower(fields[i].name)
  }

  lemma LowerNamesSnoc(fields: seq<Field>)
    requires |fields| > 0
    ensures LowerNames(fields) == LowerNames(fields[..|fields| - 1]) + {ToLower(fields[|fields| - 1].name)}
  {
    var init := fields[..|fields| - 1];
    forall k | k in LowerNames(fields) ensures k in LowerNames(init) + {ToLower(fields[|fields| - 1].name)} {
      var i :| 0 <= i < |fields| && k == ToLower(fields[i].name);
      if i < |init| {
        assert init[i] == fields[i];
      }
    }
    forall k | k in LowerNames(init) ensures k in LowerNames(fields) {
      var i :| 0 <= i < |init| && k == ToLower(init[i].name);
      assert fields[i] == init[i];
    }
  }

  /** Every field lands under its lower-cased name, and no other key appears. */
  lemma {:induction false} AddedFieldsKeys(headers: map<string, Header>, fields: seq<Field>)
    ensures AddedFields(headers, fields).Keys == headers.Keys + LowerNames(fields)
  {
    if |fields| > 0 {
      AddedFieldsKeys(headers, fields[..|fields| - 1]);
      LowerNamesSnoc(fields);
    }
  }

  /**
   * Under each key the builder holds the earlier values followed by the values of the
   * fields with that name, in arrival order.
   */
  lemma {:induction false} AddedFieldsValues(headers: map<string, Header>, fields: seq<Field>, key: string)
    ensures key in AddedFields(headers, fields) ==>
      AddedFields(headers, fields)[key].values ==
        (if key in headers then headers[key].values else []) + ValuesUnder(fields, key)
    ensures key !in AddedFields(headers, fields) ==> ValuesUnder(fields, key) == []
  {
    if |fields| > 0 {
      var init := fields[..|fields| - 1];
      var f := fields[|fields| - 1];
      AddedFieldsValues(headers, init, key);
      var before := AddedFields(headers, init);
      if key == ToLower(f.name) {
        assert key in AddedFields(headers, fields);
        if key in before {
          assert AddedFields(headers, fields)[key].values == before[key].values + [f.value.GetOr("")];
        } else {
          AddedFieldsKeys(headers, init);
          assert AddedFields(headers, fields)[key].values == [f.value.GetOr("")];
        }
      } else {
        assert ValuesUnder(fields, key) == ValuesUnder(init, key);
      }
    }
  }

  /** The forEach of fromResult: addHeader(name, value) per field. */
  method AddFields(builder: ResponseBuilder, fields: seq<Field>)
    modifies builder
    ensures builder.headers == AddedFields(old(builder.headers), fields)
    ensures builder.statusCode == old(builder.statusCode) && builder.attributes == old(builder.attributes)
    ensures builder.body == old(builder.body) && builder.stats == old(builder.stats)
    ensures builder.timing == old(builder.timing)
  {
    var i := 0;
    while i < |fields|
      invariant 0 <= i <= |fields|
      invariant builder.headers == AddedFields(old(builder.headers), fields[..i])
      invariant builder.statusCode == old(builder.statusCode) && builder.attributes == old(builder.attributes)
      invariant builder.body == old(builder.body) && builder.stats == old(builder.stats)
      invariant builder.timing == old(builder.timing)
    {
      assert fields[..i + 1][..i] == fields[..i];
      builder.AddHeader(fields[i].name, fields[i].value);
      i := i + 1;
    }
    assert fields[..i] == fields;
  }

  /** Adding two field lists one after the other is adding their concatenation. */
  lemma {:induction false} AddedFieldsAppend(headers: map<string, Header>, a: seq<Field>, b: seq<Field>)
    ensures AddedFields(headers, a + b) == AddedFields(AddedFields(headers, a), b)
    decreases |b|
  {
    if |b| == 0 {
      assert a + b == a;
    } else {
      assert (a + b)[..|a + b| - 1] == a + b[..|b| - 1];
      AddedFieldsAppend(headers, a, b[..|b| - 1]);
    }
  }

  /** A header name with its list of values, as the ning and JDK clients hand headers over. */
  datatype HeaderEntry = HeaderEntry(name: string, values: seq<string>)

  /** One field per value of an entry, under the entry's name. */
  function ValueFields(e: HeaderEntry): (fs: seq<Field>)
    ensures |fs| == |e.values|
    ensures forall i :: 0 <= i < |fs| ==> fs[i] == Field(e.name, Some(e.values[i]))
  {
    seq(|e.values|, i requires 0 <= i < |e.values| => Field(e.name, Some(e.values[i])))
  }

  /** The fields of the entries, entry by entry and value by value. */
  function EntryFields(entries: seq<HeaderEntry>): seq<Field>
  {
    if |entries| == 0 then []
    else EntryFields(entries[..|entries| - 1]) + ValueFields(entries[|entries| - 1])
  }

  /** The values of every entry whose lower-cased name is key, in entry order. */
  function EntryValuesUnder(entries: seq<HeaderEntry>, key: string): seq<string>
  {
    if |entries| == 0 then []
    else
      var e := entries[|entries| - 1];
      EntryValuesUnder(entries[..|entries| - 1], key) + (if ToLower(e.name) == key then e.values else [])
  }

  lemma {:induction false} ValuesUnderAppend(a: seq<Field>, b: seq<Field>, key: string)
    ensures ValuesUnder(a + b, key) == ValuesUnder(a, key) + ValuesUnder(b, key)
    decreases |b|
  {
    if |b| == 0 {
      assert a + b == a;
    } else {
      assert (a + b)[..|a + b| - 1] == a + b[..|b| - 1];
      ValuesUnderAppend(a, b[..|b| - 1], key);
    }
  }

  lemma {:induction false} ValuesUnderValueFields(e: HeaderEntry, key: string)
    ensures ValuesUnder(ValueFields(e), key) == if ToLower(e.name) == key then e.values else []
    decreases |e.values|
  {
    if |e.values| > 0 {
      var init := HeaderEntry(e.name, e.values[..|e.values| - 1]);
      assert ValueFields(e)[..|e.values| - 1] == ValueFields(init);
      ValuesUnderValueFields(init, key);
      assert e.values == init.values + [e.values[|e.values| - 1]];
    }
  }

  /** Flattening then selecting by name is selecting the entries by name. */
  lemma {:induction false} EntryFieldsValues(entries: seq<HeaderEntry>, key: string)
    ensures ValuesUnder(EntryFields(entries), key) == EntryValuesUnder(entries, key)
  {
    if |entries| > 0 {
      var init := entries[..|entries| - 1];
      var e := entries[|entries| - 1];
      EntryFieldsValues(init, key);
      ValuesUnderAppend(EntryFields(init), ValueFields(e), key);
      ValuesUnderValueFields(e, key);
    }
  }

  /**
   * A builder that starts empty and is given every value of every entry holds, under
   * each lower-cased name, all values of the entries with that name in order; a name
   * with no values has no header.
   */
  lemma EntriesHeaderValues(entries: seq<HeaderEntry>, key: string)
    ensures key in AddedFields(map[], EntryFields(entries)) ==>
      AddedFields(map[], EntryFields(entries))[key].values == EntryValuesUnder(entries, key)
    ensures key !in AddedFields(map[], EntryFields(entries)) ==> EntryValuesUnder(entries, key) == []
  {
    AddedFieldsValues(map[], EntryFields(entries), key);
    EntryFieldsValues(entries, key);
  }

  /** The nested loops of the ning and JDK clients: addHeader(name, value) per value of each entry. */
  method AddEntries(builder: ResponseBuilder, entries: seq<HeaderEntry>)
    modifies builder
    ensures builder.headers == AddedFields(old(builder.headers), EntryFields(entries))
    ensures builder.statusCode == old(builder.statusCode) && builder.attributes == old(builder.attributes)
    ensures builder.body == old(builder.body) && builder.stats == old(builder.stats)
    ensures builder.timing == old(builder.timing)
  {
    var i := 0;
    while i < |entries|
      invariant 0 <= i <= |entries|
      invariant builder.headers == AddedFields(old(builder.headers), EntryFields(entries[..i]))
      invariant builder.statusCode == old(builder.statusCode) && builder.attributes == old(builder.attributes)
      invariant builder.body == old(builder.body) && builder.stats == old(builder.stats)
      invariant builder.timing == old(builder.timing)
    {
      assert entries[..i + 1][..i] == entries[..i];
      AddedFieldsAppend(old(builder.headers), EntryFields(entries[..i]), ValueFields(entries[i]));
      AddFields(builder, ValueFields(entries[i]));
      i := i + 1;
    }
    assert entries[..i] == entries;
  }

  /** One (name, value) pair per value of a header or parameter. */
  function ValuePairs(p: NamedValue): (r: seq<(string, string)>)
    ensures |r| == |p.values|
    ensures forall i :: 0 <= i < |r| ==> r[i] == (p.name, p.values[i])
  {
    seq(|p.values|, i requires 0 <= i < |p.values| => (p.name, p.values[i]))
  }

  /** One (name, value) pair per value of each header, header by header. */
  function HeaderPairs(headers: seq<Header>): (r: seq<(string, string)>)
    ensures |r| >= |headers|
  {
    if |headers| == 0 then []
    else HeaderPairs(headers[..|headers| - 1]) + ValuePairs(headers[|headers| - 1])
  }

  /** Every value of every header is sent under the header's name. */
  lemma {:induction false} HeaderPairsComplete(headers: seq<Header>)
    ensures forall i, j :: 0 <= i < |headers| && 0 <= j < |headers[i].values| ==>
      (headers[i].name, headers[i].values[j]) in HeaderPairs(headers)
  {
    if |headers| > 0 {
      var init := headers[..|headers| - 1];
      var h := headers[|headers| - 1];
      HeaderPairsComplete(init);
      var r := HeaderPairs(headers);
      assert r == HeaderPairs(init) + ValuePairs(h);
      forall i, j | 0 <= i < |headers| && 0 <= j < |headers[i].values|
        ensures (headers[i].name, headers[i].values[j]) in r
      {
        if i < |init| {
          assert init[i] == headers[i];
          assert (init[i].name, init[i].values[j]) in HeaderPairs(init);
        } else {
          assert ValuePairs(h)[j] == (h.name, h.values[j]);
        }
      }
    }
  }

  /** Whether a pair is a value of one of the headers under that header's name. */
  predicate FromSomeHeader(headers: seq<Header>, pair: (string, string))
  {
    exists i :: 0 <= i < |headers| && pair.0 == headers[i].name && pair.1 in headers[i].values
  }

  /** Nothing but the headers' values is sent. */
  lemma {:induction false} HeaderPairsSound(headers: seq<Header>)
    ensures forall k :: 0 <= k < |HeaderPairs(headers)| ==> FromSomeHeader(headers, HeaderPairs(headers)[k])
  {
    if |headers| > 0 {
      var init := headers[..|headers| - 1];
      var h := headers[|headers| - 1];
      HeaderPairsSound(init);
      var r := HeaderPairs(headers);
      assert r == HeaderPairs(init) + ValuePairs(h);
      forall k | 0 <= k < |r|
        ensures FromSomeHeader(headers, r[k])
      {
        if k < |HeaderPairs(init)| {
          assert r[k] == HeaderPairs(init)[k];
          assert FromSomeHeader(init, r[k]);
          var i :| 0 <= i < |init| && r[k].0 == init[i].name && r[k].1 in init[i].values;
          assert init[i] == headers[i];
        } else {
          var j := k - |HeaderPairs(init)|;
          assert r[k] == ValuePairs(h)[j];
          var i := |headers| - 1;
          assert headers[i] == h && h.values[j] in h.values;
        }
      }
    }
  }

  /** The loop over every value of every header (or parameter): one (name, value) pair appended per value. */
  method AppendPairs(added: seq<(string, string)>, headers: seq<Header>) returns (r: seq<(string, string)>)
    ensures r == added + HeaderPairs(headers)
  {
    r := added;
    var i := 0;
    while i < |headers|
      invariant 0 <= i <= |headers|
      invariant r == added + HeaderPairs(headers[..i])
    {
      var h := headers[i];
      var j := 0;
      while j < |h.values|
        invariant 0 <= j <= |h.values|
        invariant r == added + HeaderPairs(headers[..i]) + ValuePairs(h)[..j]
      {
        assert ValuePairs(h)[..j + 1] == ValuePairs(h)[..j] + [(h.name, h.values[j])];
        r := r + [(h.name, h.values[j])];
        j := j + 1;
      }
      assert ValuePairs(h)[..j] == ValuePairs(h);
      assert headers[..i + 1][..i] == headers[..i];
      i := i + 1;
    }
    assert headers[..i] == headers;
  }
}
