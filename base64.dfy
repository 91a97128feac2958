/**
 * The base 64 alphabet of section 4 of RFC 4648, as Guava's BaseEncoding.base64()
 * encodes and decodes it: encoding pads with '=', decoding first strips every trailing
 * '=', refuses a remaining length of 1 modulo 4 and any character outside the alphabet,
 * and ignores the unused low bits of a final partial group.
 */
module Base64 {
  import opened Wrappers
  import opened JavaText

  type sextet = x: int | 0 <= x < 64

  /** The character of a 6-bit value (Table 1 of RFC 4648). */
  function CharOf(v: sextet): (c: char)
    ensures c != '=' && !IsSpace(c)
  {
    if v < 26 then ('A' as int + v) as char
    else if v < 52 then ('a' as int + (v - 26)) as char
    else if v < 62 then ('0' as int + (v - 52)) as char
    else if v == 62 then '+'
    else '/'
  }

  /** The 6-bit value of an alphabet character, or None for any other character. */
  function ValueOf(c: char): (r: Option<sextet>)
    ensures c == '=' ==> r == None
  {
    if 'A' <= c <= 'Z' then Some(c as int - 'A' as int)
    else if 'a' <= c <= 'z' then Some(c as int - 'a' as int + 26)
    else if '0' <= c <= '9' then Some(c as int - '0' as int + 52)
    else if c == '+' then Some(62)
    else if c == '/' then Some(63)
    else None
  }

  lemma ValueOfCharOf(v: sextet)
    ensures ValueOf(CharOf(v)) == Some(v)
  {
  }

  lemma CharOfValueOf(c: char)
    requires ValueOf(c).Some?
    ensures CharOf(ValueOf(c).value) == c
  {
  }

  /** The alphabet characters of the groups, without padding. */
  function EncodeChars(b: seq<byte>): string
  {
    if |b| == 0 then ""
    else if |b| == 1 then [CharOf(b[0] / 4), CharOf((b[0] % 4) * 16)]
    else if |b| == 2 then
      [CharOf(b[0] / 4), CharOf((b[0] % 4) * 16 + b[1] / 16), CharOf((b[1] % 16) * 4)]
    else
      [CharOf(b[0] / 4), CharOf((b[0] % 4) * 16 + b[1] / 16),
       CharOf((b[1] % 16) * 4 + b[2] / 64), CharOf(b[2] % 64)] + EncodeChars(b[3..])
  }

  /** No padding character and no blank. */
  predicate Clean(s: string)
  {
    forall i :: 0 <= i < |s| ==> s[i] != '=' && !IsSpace(s[i])
  }

  lemma CleanAppend(a: string, b: string)
    requires Clean(a) && Clean(b)
    ensures Clean(a + b)
  {
    forall i | 0 <= i < |a + b| ensures (a + b)[i] != '=' && !IsSpace((a + b)[i]) {
      if i >= |a| {
        assert (a + b)[i] == b[i - |a|];
      }
    }
  }

  /** The encoding holds no padding and no blank, and its length is never 1 modulo 4. */
  lemma {:induction false} EncodeCharsShape(b: seq<byte>)
    ensures Clean(EncodeChars(b)) && |EncodeChars(b)| % 4 != 1
  {
    if |b| >= 3 {
      EncodeCharsShape(b[3..]);
      EncodeCharsGroup(b);
      CleanAppend(GroupChars(b[0], b[1], b[2]), EncodeChars(b[3..]));
      var n := |EncodeChars(b[3..])|;
      assert |EncodeChars(b)| == n + 4;
      assert (n + 4) % 4 == n % 4;
    } else if |b| == 2 {
      assert EncodeChars(b) == PairChars(b[0], b[1]);
    }
  }

  function Padding(n: nat): string
  {
    if n % 3 == 1 then "==" else if n % 3 == 2 then "=" else ""
  }

  /** BaseEncoding.base64().encode. */
  function Encode(b: seq<byte>): (r: string)
    ensures |b| == 0 <==> |r| == 0
    ensures forall i :: 0 <= i < |r| ==> !IsSpace(r[i])
  {
    EncodeCharsShape(b);
    EncodeChars(b) + Padding(|b|)
  }

  /** The input with every trailing '=' removed. */
  function TrimPadding(s: string): (r: string)
    ensures |r| <= |s| && r == s[..|r|]
    ensures |r| == 0 || r[|r| - 1] != '='
  {
    if |s| > 0 && s[|s| - 1] == '=' then TrimPadding(s[..|s| - 1]) else s
  }

  function DecodeChunks(t: string): Option<seq<byte>>
  {
    if |t| == 0 then Some([])
    else if |t| == 1 then None
    else
      var v0 := ValueOf(t[0]);
      var v1 := ValueOf(t[1]);
      if v0.None? || v1.None? then None
      else
        var a, b := v0.value, v1.value;
        if |t| == 2 then Some([a * 4 + b / 16])
        else
          var v2 := ValueOf(t[2]);
          if v2.None? then None
          else
            var c := v2.value;
            if |t| == 3 then Some([a * 4 + b / 16, (b % 16) * 16 + c / 4])
            else
              var v3 := ValueOf(t[3]);
              var rest := DecodeChunks(t[4..]);
              if v3.None? || rest.None? then None
              else Some([a * 4 + b / 16, (b % 16) * 16 + c / 4, (c % 4) * 64 + v3.value] + rest.value)
  }

  /**
   * BaseEncoding.base64().decode; None stands for the IllegalArgumentException it
   * throws on a bad length or an unrecognised character.
   */
  function Decode(s: string): (r: Option<seq<byte>>)
    ensures |TrimPadding(s)| % 4 == 1 ==> r == None
  {
    var t := TrimPadding(s);
    if |t| % 4 == 1 then None else DecodeChunks(t)
  }

  /** The first two sextets of a group give back its first byte, and the low bits of the second. */
  lemma FirstByteBits(b0: byte, b1: byte)
    ensures var v := (b0 % 4) * 16 + b1 / 16;
      0 <= v < 64 && (b0 / 4) * 4 + v / 16 == b0 && v % 16 == b1 / 16
  {
  }

  /** The second and third sextets of a full group give back its second byte. */
  lemma SecondByteBits(b1: byte, b2: byte)
    ensures var v := (b1 % 16) * 4 + b2 / 64;
      0 <= v < 64 && (b1 / 16) * 16 + v / 4 == b1 && (v % 4) * 64 + b2 % 64 == b2
  {
  }

  /** Decoding a text that starts with a full group of alphabet characters: that group, then the rest. */
  lemma DecodeFullGroup(t: string)
    requires |t| >= 4
    requires ValueOf(t[0]).Some? && ValueOf(t[1]).Some? && ValueOf(t[2]).Some? && ValueOf(t[3]).Some?
    ensures var a, b, c, d := ValueOf(t[0]).value, ValueOf(t[1]).value, ValueOf(t[2]).value, ValueOf(t[3]).value;
      DecodeChunks(t) ==
        if DecodeChunks(t[4..]).None? then None
        else Some([a * 4 + b / 16, (b % 16) * 16 + c / 4, (c % 4) * 64 + d] + DecodeChunks(t[4..]).value)
  {
  }

  lemma DecodeTwoChars(t: string)
    requires |t| == 2 && ValueOf(t[0]).Some? && ValueOf(t[1]).Some?
    ensures DecodeChunks(t) == Some([ValueOf(t[0]).value * 4 + ValueOf(t[1]).value / 16])
  {
  }

  lemma DecodeThreeChars(t: string)
    requires |t| == 3 && ValueOf(t[0]).Some? && ValueOf(t[1]).Some? && ValueOf(t[2]).Some?
    ensures var a, b, c := ValueOf(t[0]).value, ValueOf(t[1]).value, ValueOf(t[2]).value;
      DecodeChunks(t) == Some([a * 4 + b / 16, (b % 16) * 16 + c / 4])
  {
  }

  /** A final group of one byte: two characters. */
  lemma DecodeOneByte(b: seq<byte>)
    requires |b| == 1
    ensures DecodeChunks(EncodeChars(b)) == Some(b)
  {
    var a: sextet := b[0] / 4;
    var v1: sextet := (b[0] % 4) * 16;
    var e := EncodeChars(b);
    assert e == [CharOf(a), CharOf(v1)];
    ValueOfCharOf(a);
    ValueOfCharOf(v1);
    DecodeTwoChars(e);
    assert a * 4 + v1 / 16 == b[0];
    assert b == [b[0]];
  }

  /** A final group of two bytes: three characters. */
  lemma DecodeTwoBytes(b: seq<byte>)
    requires |b| == 2
    ensures DecodeChunks(EncodeChars(b)) == Some(b)
  {
    assert EncodeChars(b) == PairChars(b[0], b[1]);
    DecodePairChars(b[0], b[1]);
    assert b == [b[0], b[1]];
  }

  /** The three characters a final group of two bytes is encoded as. */
  function PairChars(b0: byte, b1: byte): string
  {
    [CharOf(b0 / 4), CharOf((b0 % 4) * 16 + b1 / 16), CharOf((b1 % 16) * 4)]
  }

  lemma DecodePairChars(b0: byte, b1: byte)
    ensures DecodeChunks(PairChars(b0, b1)) == Some([b0, b1])
  {
    var a: sextet := b0 / 4;
    var v1: sextet := (b0 % 4) * 16 + b1 / 16;
    var v2: sextet := (b1 % 16) * 4;
    ValueOfCharOf(a);
    ValueOfCharOf(v1);
    ValueOfCharOf(v2);
    DecodeThreeChars(PairChars(b0, b1));
    FirstByteBits(b0, b1);
    assert v2 / 4 == b1 % 16;
  }

  /** The three bytes of a full group come back from its four sextets. */
  lemma FullGroupBytes(b0: byte, b1: byte, b2: byte)
    ensures var a, v1, v2, v3 := b0 / 4, (b0 % 4) * 16 + b1 / 16, (b1 % 16) * 4 + b2 / 64, b2 % 64;
      [a * 4 + v1 / 16, (v1 % 16) * 16 + v2 / 4, (v2 % 4) * 64 + v3] == [b0, b1, b2]
  {
    FirstByteBits(b0, b1);
    SecondByteBits(b1, b2);
  }

  /** The four characters a full group of three bytes is encoded as. */
  function GroupChars(b0: byte, b1: byte, b2: byte): string
  {
    [CharOf(b0 / 4), CharOf((b0 % 4) * 16 + b1 / 16), CharOf((b1 % 16) * 4 + b2 / 64), CharOf(b2 % 64)]
  }

  lemma EncodeCharsGroup(b: seq<byte>)
    requires |b| >= 3
    ensures EncodeChars(b) == GroupChars(b[0], b[1], b[2]) + EncodeChars(b[3..])
  {
  }

  /** A full group followed by text that decodes decodes to the group's bytes followed by that text's. */
  lemma DecodeGroupThenRest(b0: byte, b1: byte, b2: byte, rest: string, tail: seq<byte>)
    requires DecodeChunks(rest) == Some(tail)
    ensures DecodeChunks(GroupChars(b0, b1, b2) + rest) == Some([b0, b1, b2] + tail)
  {
    var e := GroupChars(b0, b1, b2) + rest;
    ValueOfCharOf(b0 / 4);
    ValueOfCharOf((b0 % 4) * 16 + b1 / 16);
    ValueOfCharOf((b1 % 16) * 4 + b2 / 64);
    ValueOfCharOf(b2 % 64);
    assert e[4..] == rest;
    DecodeFullGroup(e);
    FullGroupBytes(b0, b1, b2);
  }

  lemma {:induction false} DecodeEncodeChars(b: seq<byte>)
    ensures DecodeChunks(EncodeChars(b)) == Some(b)
    decreases |b|
  {
    if |b| == 1 {
      DecodeOneByte(b);
    } else if |b| == 2 {
      DecodeTwoBytes(b);
    } else if |b| >= 3 {
      DecodeEncodeChars(b[3..]);
      EncodeCharsGroup(b);
      DecodeGroupThenRest(b[0], b[1], b[2], EncodeChars(b[3..]), b[3..]);
      assert b == [b[0], b[1], b[2]] + b[3..];
    }
  }

  lemma TrimPaddingOfPadded(x: string, p: string)
    requires |x| == 0 || x[|x| - 1] != '='
    requires forall i :: 0 <= i < |p| ==> p[i] == '='
    ensures TrimPadding(x + p) == x
    decreases |p|
  {
    if |p| > 0 {
      assert (x + p)[..|x + p| - 1] == x + p[..|p| - 1];
      TrimPaddingOfPadded(x, p[..|p| - 1]);
    } else {
      assert x + p == x;
    }
  }

  /** Decoding an encoding gives back the bytes. */
  lemma DecodeEncode(b: seq<byte>)
    ensures Decode(Encode(b)) == Some(b)
  {
    var x := EncodeChars(b);
    EncodeCharsShape(b);
    TrimPaddingOfPadded(x, Padding(|b|));
    DecodeEncodeChars(b);
  }
}
