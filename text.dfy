/**
 * The java.lang.String and java.util.StringTokenizer operations the core relies on,
 * for strings of Unicode scalar values.  Case mapping is restricted to ASCII letters;
 * trim removes the characters up to U+0020, as String.trim does.
 */
module JavaText {

  type byte = x: int | 0 <= x < 256

  function LowerChar(c: char): char
  {
    if 'A' <= c <= 'Z' then (c as int + 32) as char else c
  }

  function UpperChar(c: char): char
  {
    if 'a' <= c <= 'z' then (c as int - 32) as char else c
  }

  /** String.toLowerCase (ASCII letters only). */
  function ToLower(s: string): (r: string)
    ensures |r| == |s|
  {
    seq(|s|, i requires 0 <= i < |s| => LowerChar(s[i]))
  }

  /** String.toUpperCase (ASCII letters only). */
  function ToUpper(s: string): (r: string)
    ensures |r| == |s|
  {
    seq(|s|, i requires 0 <= i < |s| => UpperChar(s[i]))
  }

  lemma LowerIdempotent(s: string)
    ensures ToLower(ToLower(s)) == ToLower(s)
  {
  }

  lemma LowerAppend(a: string, b: string)
    ensures ToLower(a + b) == ToLower(a) + ToLower(b)
  {
  }

  predicate IsSpace(c: char)
  {
    c <= ' '
  }

  function TrimStart(s: string): (r: string)
    ensures |r| <= |s| && r == s[|s| - |r|..]
    ensures |r| > 0 ==> !IsSpace(r[0])
  {
    if |s| > 0 && IsSpace(s[0]) then TrimStart(s[1..]) else s
  }

  function TrimEnd(s: string): (r: string)
    ensures |r| <= |s| && r == s[..|r|]
    ensures |r| > 0 ==> !IsSpace(r[|r| - 1])
  {
    if |s| > 0 && IsSpace(s[|s| - 1]) then TrimEnd(s[..|s| - 1]) else s
  }

  /** String.trim: strips leading and trailing characters up to U+0020. */
  function Trim(s: string): (r: string)
    ensures |r| <= |s|
    ensures |r| > 0 ==> !IsSpace(r[0]) && !IsSpace(r[|r| - 1])
  {
    TrimEnd(TrimStart(s))
  }

  lemma TrimStartNoSpace(s: string)
    requires |s| == 0 || !IsSpace(s[0])
    ensures TrimStart(s) == s
  {
  }

  lemma TrimEndNoSpace(s: string)
    requires |s| == 0 || !IsSpace(s[|s| - 1])
    ensures TrimEnd(s) == s
  {
  }

  /** A string without surrounding blanks is its own trim. */
  lemma TrimOfTrimmed(s: string)
    requires |s| == 0 || (!IsSpace(s[0]) && !IsSpace(s[|s| - 1]))
    ensures Trim(s) == s
  {
    TrimStartNoSpace(s);
    TrimEndNoSpace(s);
  }

  lemma TrimIdempotent(s: string)
    ensures Trim(Trim(s)) == Trim(s)
  {
    TrimOfTrimmed(Trim(s));
  }

  predicate StartsWith(s: string, prefix: string)
  {
    |prefix| <= |s| && s[..|prefix|] == prefix
  }

  /** String.indexOf(char): the first index of c, or -1. */
  function IndexOf(s: string, c: char): (r: int)
    ensures -1 <= r < |s|
    ensures r == -1 <==> c !in s
    ensures r >= 0 ==> s[r] == c && c !in s[..r]
  {
    if |s| == 0 then -1
    else if s[0] == c then 0
    else
      var r := IndexOf(s[1..], c);
      assert s[1..][..(if r < 0 then 0 else r)] == s[1..1 + (if r < 0 then 0 else r)];
      if r < 0 then -1 else r + 1
  }

  /** The first occurrence is the only index holding c with no c before it. */
  lemma IndexOfIs(s: string, c: char, k: int)
    requires 0 <= k < |s| && s[k] == c && c !in s[..k]
    ensures IndexOf(s, c) == k
  {
    var r := IndexOf(s, c);
    assert s[k] in s;
  }

  predicate OccursAt(s: string, t: string, i: int)
  {
    0 <= i && i + |t| <= |s| && s[i..i + |t|] == t
  }

  function IndexOfFrom(s: string, t: string, from: nat): (r: int)
    ensures r == -1 || (from <= r && OccursAt(s, t, r))
    ensures r == -1 ==> forall i :: from <= i ==> !OccursAt(s, t, i)
    ensures r >= 0 ==> forall i :: from <= i < r ==> !OccursAt(s, t, i)
    decreases |s| - from
  {
    if from + |t| > |s| then -1
    else if s[from..from + |t|] == t then from
    else IndexOfFrom(s, t, from + 1)
  }

  /** String.indexOf(String): the first index at which t occurs, or -1. */
  function IndexOfString(s: string, t: string): (r: int)
    ensures r == -1 <==> forall i :: !OccursAt(s, t, i)
    ensures r >= 0 ==> OccursAt(s, t, r) && forall i :: 0 <= i < r ==> !OccursAt(s, t, i)
  {
    IndexOfFrom(s, t, 0)
  }

  /** The parts separated by sep, as Guava's Joiner and StringBuilder loops produce them. */
  function Join(sep: string, parts: seq<string>): string
  {
    if |parts| == 0 then ""
    else if |parts| == 1 then parts[0]
    else Join(sep, parts[..|parts| - 1]) + sep + parts[|parts| - 1]
  }

  lemma JoinSnoc(sep: string, parts: seq<string>, p: string)
    requires |parts| > 0
    ensures Join(sep, parts + [p]) == Join(sep, parts) + sep + p
  {
    assert (parts + [p])[..|parts|] == parts;
  }

  /** Joining a first part to a non-empty rest puts one separator between them. */
  lemma {:induction false} JoinCons(sep: string, p: string, parts: seq<string>)
    requires |parts| > 0
    ensures Join(sep, [p] + parts) == p + sep + Join(sep, parts)
    decreases |parts|
  {
    if |parts| > 1 {
      var init := parts[..|parts| - 1];
      var last := parts[|parts| - 1];
      assert [p] + parts == ([p] + init) + [last];
      JoinSnoc(sep, [p] + init, last);
      JoinCons(sep, p, init);
      assert init + [last] == parts;
      JoinSnoc(sep, init, last);
    }
  }

  /** The pieces between occurrences of d, empty pieces included. */
  function Split(s: string, d: char): (r: seq<string>)
    ensures |r| > 0
    ensures forall k :: 0 <= k < |r| ==> d !in r[k]
    decreases |s|
  {
    var i := IndexOf(s, d);
    if i < 0 then [s] else [s[..i]] + Split(s[i + 1..], d)
  }

  /** Splitting parts joined by a delimiter none of them contains gives the parts back. */
  lemma {:induction false} SplitJoin(parts: seq<string>, d: char)
    requires |parts| > 0
    requires forall k :: 0 <= k < |parts| ==> d !in parts[k]
    ensures Split(Join([d], parts), d) == parts
    decreases |parts|
  {
    if |parts| == 1 {
      assert Join([d], parts) == parts[0];
    } else {
      var p := parts[0];
      var rest := parts[1..];
      assert parts == [p] + rest;
      JoinCons([d], p, rest);
      var s := Join([d], parts);
      assert s == p + [d] + Join([d], rest);
      assert s[..|p|] == p;
      IndexOfIs(s, d, |p|);
      assert s[|p| + 1..] == Join([d], rest);
      SplitJoin(rest, d);
    }
  }

  function NonEmpty(parts: seq<string>): (r: seq<string>)
    ensures forall k :: 0 <= k < |r| ==> r[k] != "" && r[k] in parts
  {
    if |parts| == 0 then []
    else if parts[0] == "" then NonEmpty(parts[1..])
    else [parts[0]] + NonEmpty(parts[1..])
  }

  /** The tokens a StringTokenizer on the single delimiter d returns: maximal non-empty runs. */
  function Tokens(s: string, d: char): (r: seq<string>)
    ensures forall k :: 0 <= k < |r| ==> r[k] != "" && d !in r[k]
  {
    NonEmpty(Split(s, d))
  }

  lemma NoDelimiterOneToken(s: string, d: char)
    requires s != "" && d !in s
    ensures Tokens(s, d) == [s]
  {
    assert IndexOf(s, d) == -1;
    assert Split(s, d) == [s];
    assert [s][1..] == [];
    assert NonEmpty([s]) == [s] + NonEmpty([]);
  }

  function DecimalDigit(n: nat): char
    requires n < 10
  {
    "0123456789"[n]
  }

  function NatToString(n: nat): (r: string)
    ensures |r| > 0
  {
    if n < 10 then [DecimalDigit(n)]
    else NatToString(n / 10) + [DecimalDigit(n % 10)]
  }

  /** Integer.toString / Long.toString in base ten. */
  function IntToString(n: int): (r: string)
    ensures |r| > 0
  {
    if n < 0 then "-" + NatToString(-n) else NatToString(n)
  }

  /** The UTF-8 encoding of one Unicode scalar value (section 3 of RFC 3629). */
  function Utf8EncodeChar(c: char): (r: seq<byte>)
    ensures 1 <= |r| <= 4
    ensures c < 128 as char <==> |r| == 1
    ensures c < 128 as char ==> r == [c as int]
    ensures c >= 128 as char ==> r[|r| - 1] >= 0x80
  {
    var n := c as int;
    if n < 0x80 then [n]
    else if n < 0x800 then [0xC0 + n / 64, 0x80 + n % 64]
    else if n < 0x10000 then [0xE0 + n / 4096, 0x80 + (n / 64) % 64, 0x80 + n % 64]
    else [0xF0 + n / 262144, 0x80 + (n / 4096) % 64, 0x80 + (n / 64) % 64, 0x80 + n % 64]
  }

  /** String.getBytes with UTF-8, the platform default charset since Java 18. */
  function Utf8Encode(s: string): (r: seq<byte>)
    ensures |r| >= |s|
  {
    if |s| == 0 then [] else Utf8EncodeChar(s[0]) + Utf8Encode(s[1..])
  }

  const REPLACEMENT: char := '\U{FFFD}'

  /** A continuation byte, 10xxxxxx. */
  predicate IsContinuation(b: byte)
  {
    0x80 <= b < 0xC0
  }

  /** How many continuation bytes a lead byte announces; 0 for bytes that start no longer sequence. */
  function Trailing(lead: byte): nat
  {
    if 0xC2 <= lead <= 0xDF then 1
    else if 0xE0 <= lead <= 0xEF then 2
    else if 0xF0 <= lead <= 0xF4 then 3
    else 0
  }

  /** The bounds of the byte after a lead byte, which exclude overlong forms, surrogates and values past U+10FFFF. */
  function SecondLow(lead: byte): byte
  {
    if lead == 0xE0 then 0xA0 else if lead == 0xF0 then 0x90 else 0x80
  }

  function SecondHigh(lead: byte): byte
  {
    if lead == 0xED then 0x9F else if lead == 0xF4 then 0x8F else 0xBF
  }

  /**
   * The first character of some bytes and how many bytes it takes (section 3 of RFC 3629).
   * An ill-formed start is replaced by one U+FFFD covering its longest prefix of a
   * well-formed sequence, at least one byte.
   */
  function DecodeFirst(b: seq<byte>): (r: (char, nat))
    requires |b| > 0
    ensures 1 <= r.1 <= |b| && r.1 <= 4
  {
    var b0 := b[0];
    if b0 < 0x80 then (b0 as char, 1)
    else if Trailing(b0) == 0 || |b| < 2 || !(SecondLow(b0) <= b[1] <= SecondHigh(b0)) then (REPLACEMENT, 1)
    else if Trailing(b0) == 1 then (Char2(b0, b[1]), 2)
    else if |b| < 3 || !IsContinuation(b[2]) then (REPLACEMENT, 2)
    else if Trailing(b0) == 2 then (Char3(b0, b[1], b[2]), 3)
    else if |b| < 4 || !IsContinuation(b[3]) then (REPLACEMENT, 3)
    else (Char4(b0, b[1], b[2], b[3]), 4)
  }

  /** The scalar value of a well-formed sequence of two, three or four bytes. */
  function Char2(b0: byte, b1: byte): char
    requires Trailing(b0) == 1 && IsContinuation(b1)
  {
    ((b0 as int - 0xC0) * 64 + (b1 as int - 0x80)) as char
  }

  function Char3(b0: byte, b1: byte, b2: byte): char
    requires Trailing(b0) == 2 && SecondLow(b0) <= b1 <= SecondHigh(b0) && IsContinuation(b2)
  {
    var hi: int := b0 as int - 0xE0;
    var x: int := (b1 as int - 0x80) * 64 + (b2 as int - 0x80);
    assert hi == 13 ==> x < 0x800;
    (hi * 4096 + x) as char
  }

  function Char4(b0: byte, b1: byte, b2: byte, b3: byte): char
    requires Trailing(b0) == 3 && SecondLow(b0) <= b1 <= SecondHigh(b0) && IsContinuation(b2) && IsContinuation(b3)
  {
    ((b0 as int - 0xF0) * 262144 + (b1 as int - 0x80) * 4096 + (b2 as int - 0x80) * 64 + (b3 as int - 0x80)) as char
  }

  /** new String(bytes, UTF_8): the characters the bytes encode, ill-formed parts replaced. */
  function Utf8Decode(b: seq<byte>): (r: string)
    ensures |r| <= |b|
    decreases |b|
  {
    if |b| == 0 then [] else [DecodeFirst(b).0] + Utf8Decode(b[DecodeFirst(b).1..])
  }

  /** The decoder reads the encoding of a character back as that character. */
  lemma DecodeFirstEncoded(c: char, rest: seq<byte>)
    ensures DecodeFirst(Utf8EncodeChar(c) + rest) == (c, |Utf8EncodeChar(c)|)
  {
    var n := c as int;
    if n < 0x80 {
    } else if n < 0x800 {
      DecodeTwo(c, rest);
    } else if n < 0x10000 {
      DecodeThree(c, rest);
    } else {
      DecodeFour(c, rest);
    }
  }

  lemma DecodeTwo(c: char, rest: seq<byte>)
    requires 0x80 <= c as int < 0x800
    ensures DecodeFirst(Utf8EncodeChar(c) + rest) == (c, 2)
  {
    var n := c as int;
    var b0, b1 := 0xC0 + n / 64, 0x80 + n % 64;
    assert Utf8EncodeChar(c) == [b0, b1];
    assert Char2(b0, b1) == c;
  }

  lemma DecodeThree(c: char, rest: seq<byte>)
    requires 0x800 <= c as int < 0x10000
    ensures DecodeFirst(Utf8EncodeChar(c) + rest) == (c, 3)
  {
    var n := c as int;
    var hi, mid, lo := n / 4096, (n / 64) % 64, n % 64;
    assert n == hi * 4096 + mid * 64 + lo;
    var b0, b1, b2 := 0xE0 + hi, 0x80 + mid, 0x80 + lo;
    assert Utf8EncodeChar(c) == [b0, b1, b2];
    assert SecondLow(b0) <= b1 <= SecondHigh(b0);
    assert Char3(b0, b1, b2) == c;
  }

  /** A value below 2^21 written in base 64, most significant digit first. */
  lemma BaseSixtyFour(n: nat)
    ensures n == (n / 262144) * 262144 + ((n / 4096) % 64) * 4096 + ((n / 64) % 64) * 64 + n % 64
  {
    assert n == (n / 64) * 64 + n % 64;
    assert n / 64 == (n / 4096) * 64 + (n / 64) % 64;
    assert n / 4096 == (n / 262144) * 64 + (n / 4096) % 64;
  }

  lemma DecodeFour(c: char, rest: seq<byte>)
    requires 0x10000 <= c as int
    ensures DecodeFirst(Utf8EncodeChar(c) + rest) == (c, 4)
  {
    var n := c as int;
    var top, hi, mid, lo := n / 262144, (n / 4096) % 64, (n / 64) % 64, n % 64;
    BaseSixtyFour(n);
    var b0, b1, b2, b3 := 0xF0 + top, 0x80 + hi, 0x80 + mid, 0x80 + lo;
    assert Utf8EncodeChar(c) == [b0, b1, b2, b3];
    assert SecondLow(b0) <= b1 <= SecondHigh(b0);
    assert Char4(b0, b1, b2, b3) == c;
  }

  /** One encoded character in front of other bytes decodes to it, then the rest decoded. */
  lemma DecodeEncodedChar(c: char, tail: seq<byte>)
    ensures Utf8Decode(Utf8EncodeChar(c) + tail) == [c] + Utf8Decode(tail)
  {
    var e := Utf8EncodeChar(c);
    DecodeFirstEncoded(c, tail);
    assert (e + tail)[|e|..] == tail;
  }

  /** Decoding the encoding of a string followed by other bytes gives the string, then the rest decoded. */
  lemma {:induction false} Utf8DecodeEncodedPrefix(s: string, rest: seq<byte>)
    ensures Utf8Decode(Utf8Encode(s) + rest) == s + Utf8Decode(rest)
  {
    if |s| == 0 {
      assert Utf8Encode(s) + rest == rest;
    } else {
      DecodeConsEncoded(s, rest);
      Utf8DecodeEncodedPrefix(s[1..], rest);
      ConsAppend(s, Utf8Decode(rest));
    }
  }

  /** The step of the induction: the first character of an encoded string decodes first. */
  lemma DecodeConsEncoded(s: string, rest: seq<byte>)
    requires |s| > 0
    ensures Utf8Decode(Utf8Encode(s) + rest) == [s[0]] + Utf8Decode(Utf8Encode(s[1..]) + rest)
  {
    var tail := Utf8Encode(s[1..]) + rest;
    assert Utf8Encode(s) + rest == Utf8EncodeChar(s[0]) + tail;
    DecodeEncodedChar(s[0], tail);
  }

  lemma ConsAppend(s: string, t: string)
    requires |s| > 0
    ensures [s[0]] + (s[1..] + t) == s + t
  {
    assert s == [s[0]] + s[1..];
  }

  /** Decoding undoes encoding: every string survives the round trip through UTF-8. */
  lemma Utf8RoundTrip(s: string)
    ensures Utf8Decode(Utf8Encode(s)) == s
  {
    Utf8DecodeEncodedPrefix(s, []);
    assert Utf8Encode(s) + [] == Utf8Encode(s);
  }

  /** "é" decodes from its two bytes; a lead byte without its continuation becomes U+FFFD alone. */
  lemma Utf8DecodeExamples()
    ensures Utf8Decode([0xC3, 0xA9]) == "\U{E9}"
    ensures Utf8Decode([0xC3, 0x41]) == [REPLACEMENT, 'A']
    ensures Utf8Decode([0xED, 0xA0, 0x80]) == [REPLACEMENT, REPLACEMENT, REPLACEMENT]
  {
    assert [0xC3, 0xA9][2..] == [];
    assert [0xC3, 0x41][1..] == [0x41];
    assert [0x41][1..] == [];
    var b: seq<byte> := [0xED, 0xA0, 0x80];
    assert b[1..] == [0xA0, 0x80] && b[1..][1..] == [0x80] && b[1..][1..][1..] == [];
  }

  /** Two strings with the same encoding are equal. */
  lemma Utf8EncodeInjective(a: string, b: string)
    requires Utf8Encode(a) == Utf8Encode(b)
    ensures a == b
  {
    Utf8RoundTrip(a);
    Utf8RoundTrip(b);
  }

  /** Encoding distributes over concatenation. */
  lemma {:induction false} Utf8EncodeAppend(a: string, b: string)
    ensures Utf8Encode(a + b) == Utf8Encode(a) + Utf8Encode(b)
  {
    if |a| == 0 {
      assert a + b == b;
    } else {
      assert (a + b)[0] == a[0] && (a + b)[1..] == a[1..] + b;
      EncodeCons(a + b);
      Utf8EncodeAppend(a[1..], b);
      EncodeCons(a);
    }
  }

  lemma EncodeCons(s: string)
    requires |s| > 0
    ensures Utf8Encode(s) == Utf8EncodeChar(s[0]) + Utf8Encode(s[1..])
  {
  }
}
