/**
 * UTF-8 as defined in section 3 of RFC 3629, over Unicode scalar values
 * (Dafny's `char`): the encoder that `str.encode('utf8')` applies and the
 * decoder that `bytes.decode('utf8', 'ignore')` applies, which drops every
 * byte that does not belong to a well-formed sequence.
 */
module Utf8 {
  import opened Wrappers

  type byte = x: int | 0 <= x < 256

  predicate IsContinuation(b: byte) {
    0x80 <= b < 0xC0
  }

  /** Number of bytes in the encoding of `c` (the table in section 3 of RFC 3629). */
  function CharLen(c: char): (n: nat)
    ensures 1 <= n <= 4
  {
    var v := c as int;
    if v < 0x80 then 1 else if v < 0x800 then 2 else if v < 0x1_0000 then 3 else 4
  }

  /** The encoding of one scalar value: a lead byte followed by continuation bytes. */
  function EncodeChar(c: char): (bs: seq<byte>)
    ensures |bs| == CharLen(c)
    ensures !IsContinuation(bs[0])
    ensures forall i :: 0 < i < |bs| ==> IsContinuation(bs[i])
  {
    var v := c as int;
    if v < 0x80 then [v]
    else if v < 0x800 then [0xC0 + v / 64, 0x80 + v % 64]
    else if v < 0x1_0000 then [0xE0 + v / 4096, 0x80 + (v / 64) % 64, 0x80 + v % 64]
    else [0xF0 + v / 262144, 0x80 + (v / 4096) % 64, 0x80 + (v / 64) % 64, 0x80 + v % 64]
  }

  /** `s.encode('utf8')`: one to four bytes per code point, never starting with a continuation byte. */
  function Encode(s: string): (bs: seq<byte>)
    ensures |s| <= |bs| <= 4 * |s|
    ensures s != [] ==> !IsContinuation(bs[0])
  {
    if s == [] then [] else EncodeChar(s[0]) + Encode(s[1..])
  }

  /**
   * The well-formed sequence at the start of `bs`, following the syntax in
   * section 4 of RFC 3629 (no overlong forms, no surrogates, nothing above
   * U+10FFFF): the scalar value it encodes and its length, or None.
   */
  function DecodeFirst(bs: seq<byte>): (r: Option<(char, nat)>)
    ensures r.Some? ==> 1 <= r.value.1 <= |bs|
  {
    if |bs| == 0 then None
    else
      var b0 := bs[0];
      if b0 < 0x80 then
        Some((b0 as char, 1))
      else if 0xC2 <= b0 <= 0xDF then
        if |bs| >= 2 && IsContinuation(bs[1]) then
          var v := (b0 as int - 0xC0) * 64 + (bs[1] as int - 0x80);
          Some((v as char, 2))
        else None
      else if 0xE0 <= b0 <= 0xEF then
        var lo := if b0 == 0xE0 then 0xA0 else 0x80;
        var hi := if b0 == 0xED then 0x9F else 0xBF;
        if |bs| >= 3 && lo <= bs[1] <= hi && IsContinuation(bs[2]) then
          var v := (b0 as int - 0xE0) * 4096 + (bs[1] as int - 0x80) * 64 + (bs[2] as int - 0x80);
          Some((v as char, 3))
        else None
      else if 0xF0 <= b0 <= 0xF4 then
        var lo := if b0 == 0xF0 then 0x90 else 0x80;
        var hi := if b0 == 0xF4 then 0x8F else 0xBF;
        if |bs| >= 4 && lo <= bs[1] <= hi && IsContinuation(bs[2]) && IsContinuation(bs[3]) then
          var v := (b0 as int - 0xF0) * 262144 + (bs[1] as int - 0x80) * 4096 + (bs[2] as int - 0x80) * 64 + (bs[3] as int - 0x80);
          Some((v as char, 4))
        else None
      else None
  }

  /** `bytes.decode('utf8', 'ignore')`: every byte that does not start a well-formed sequence is skipped. */
  function Decode(bs: seq<byte>): (s: string)
    ensures |s| <= |bs|
    decreases |bs|
  {
    if bs == [] then []
    else match DecodeFirst(bs)
      case Some((c, n)) => [c] + Decode(bs[n..])
      case None => Decode(bs[1..])
  }

  /** The number of whole code points at the start of `s` whose encoding fits in `size` bytes. */
  function FitLen(s: string, size: nat): (k: nat)
    ensures k <= |s|
  {
    if s == [] || CharLen(s[0]) > size then 0 else 1 + FitLen(s[1..], size - CharLen(s[0]))
  }

  /** `FitLen` is the longest prefix that fits: its encoding fits and one more code point would not. */
  lemma {:induction false} FitLenLongest(s: string, size: nat)
    ensures |Encode(s[..FitLen(s, size)])| <= size
    ensures FitLen(s, size) < |s| ==> |Encode(s[..FitLen(s, size) + 1])| > size
  {
    if s == [] {
    } else if CharLen(s[0]) > size {
      assert s[..1] == [s[0]];
      assert Encode(s[..1]) == EncodeChar(s[0]) + Encode([]);
    } else {
      var k' := FitLen(s[1..], size - CharLen(s[0]));
      FitLenLongest(s[1..], size - CharLen(s[0]));
      EncodePrefixCons(s, k' + 1);
      if k' < |s| - 1 {
        EncodePrefixCons(s, k' + 2);
      }
    }
  }

  lemma EncodePrefixCons(s: string, j: nat)
    requires 1 <= j <= |s|
    ensures Encode(s[..j]) == EncodeChar(s[0]) + Encode(s[1..][..j - 1])
  {
    assert s[..j][1..] == s[1..][..j - 1];
  }

  lemma {:induction false} EncodeAppend(s: string, t: string)
    ensures Encode(s + t) == Encode(s) + Encode(t)
  {
    if s == [] {
      assert s + t == t;
    } else {
      assert (s + t)[1..] == s[1..] + t;
      EncodeAppend(s[1..], t);
    }
  }

  /** The encoding of a slice is no longer than the encoding of the whole string. */
  lemma EncodeSliceLen(s: string, i: nat, j: nat)
    requires i <= j <= |s|
    ensures |Encode(s[i..j])| <= |Encode(s)|
  {
    assert s == s[..i] + s[i..j] + s[j..];
    EncodeAppend(s[..i] + s[i..j], s[j..]);
    EncodeAppend(s[..i], s[i..j]);
  }

  lemma DivMod64(v: int, q: int, r: int)
    requires 0 <= r < 64 && v == q * 64 + r
    ensures v / 64 == q && v % 64 == r
  {
  }

  lemma DivMod4096(v: int, q: int, r: int)
    requires 0 <= r < 4096 && v == q * 4096 + r
    ensures v / 4096 == q && v % 4096 == r
  {
  }

  /** Dividing by 64 twice is dividing by 4096, and likewise one level up. */
  lemma DivDiv64(v: nat)
    ensures v / 64 == (v / 4096) * 64 + (v / 64) % 64
    ensures v / 4096 == (v / 262144) * 64 + (v / 4096) % 64
  {
    var q, r := v / 4096, v % 4096;
    DivMod64(r, r / 64, r % 64);
    DivMod64(v, q * 64 + r / 64, r % 64);
    DivMod64(v / 64, q, r / 64);
    var q' := v / 262144;
    var r' := v - q' * 262144;
    DivMod4096(r', r' / 4096, r' % 4096);
    DivMod4096(v, q' * 64 + r' / 4096, r' % 4096);
    DivMod64(v / 4096, q', r' / 4096);
  }

  lemma DecodeFirstEncodeChar(c: char, rest: seq<byte>)
    ensures DecodeFirst(EncodeChar(c) + rest) == Some((c, CharLen(c)))
  {
    var v := c as int;
    if v < 0x80 {
    } else if v < 0x800 {
      DecodeFirstTwo(c, rest);
    } else if v < 0x1_0000 {
      DecodeFirstThree(c, rest);
    } else {
      DecodeFirstFour(c, rest);
    }
  }

  lemma DecodeFirstTwo(c: char, rest: seq<byte>)
    requires 0x80 <= c as int < 0x800
    ensures DecodeFirst(EncodeChar(c) + rest) == Some((c, 2))
  {
    var v := c as int;
    var bs := EncodeChar(c) + rest;
    assert bs[0] == 0xC0 + v / 64 && bs[1] == 0x80 + v % 64;
    assert (bs[0] as int - 0xC0) * 64 + (bs[1] as int - 0x80) == v;
  }

  lemma DecodeFirstThree(c: char, rest: seq<byte>)
    requires 0x800 <= c as int < 0x1_0000
    ensures DecodeFirst(EncodeChar(c) + rest) == Some((c, 3))
  {
    var v := c as int;
    var bs := EncodeChar(c) + rest;
    var x, y, z := v / 4096, (v / 64) % 64, v % 64;
    DivDiv64(v);
    assert v == x * 4096 + y * 64 + z;
    assert bs[0] == 0xE0 + x && bs[1] == 0x80 + y && bs[2] == 0x80 + z;
    assert x == 0 ==> y >= 0x20;
    assert x == 0xD ==> y < 0x20;
  }

  lemma DecodeFirstFour(c: char, rest: seq<byte>)
    requires 0x1_0000 <= c as int
    ensures DecodeFirst(EncodeChar(c) + rest) == Some((c, 4))
  {
    var v := c as int;
    var bs := EncodeChar(c) + rest;
    var w, x, y, z := v / 262144, (v / 4096) % 64, (v / 64) % 64, v % 64;
    DivDiv64(v);
    assert v == w * 262144 + x * 4096 + y * 64 + z;
    assert bs[0] == 0xF0 + w && bs[1] == 0x80 + x && bs[2] == 0x80 + y && bs[3] == 0x80 + z;
    assert w == 0 ==> x >= 0x10;
    assert w == 4 ==> x < 0x10;
  }

  /** Decoding consumes a whole encoded code point at a time. */
  lemma DecodeEncodeChar(c: char, rest: seq<byte>)
    ensures Decode(EncodeChar(c) + rest) == [c] + Decode(rest)
  {
    DecodeFirstEncodeChar(c, rest);
    assert (EncodeChar(c) + rest)[CharLen(c)..] == rest;
  }

  /** Round trip: decoding an encoding gives back the string. */
  lemma {:induction false} DecodeEncode(s: string)
    ensures Decode(Encode(s)) == s
  {
    if s != [] {
      DecodeEncodeChar(s[0], Encode(s[1..]));
      DecodeEncode(s[1..]);
    }
  }

  /** Stray continuation bytes decode to nothing. */
  lemma {:induction false} DecodeContinuations(bs: seq<byte>)
    requires forall i :: 0 <= i < |bs| ==> IsContinuation(bs[i])
    ensures Decode(bs) == []
  {
    if bs != [] {
      DecodeContinuations(bs[1..]);
    }
  }

  /** A proper prefix of one code point's encoding decodes to nothing. */
  lemma DecodePartialChar(c: char, k: nat)
    requires k < CharLen(c)
    ensures Decode(EncodeChar(c)[..k]) == []
  {
    var bs := EncodeChar(c)[..k];
    if k > 0 {
      assert DecodeFirst(bs) == None;
      DecodeContinuations(bs[1..]);
    }
  }

  /**
   * Cutting an encoding after `size` bytes and decoding with 'ignore' keeps
   * exactly the longest whole-code-point prefix that fits in `size` bytes.
   */
  lemma {:induction false} DecodeTruncated(s: string, size: nat)
    requires size < |Encode(s)|
    ensures Decode(Encode(s)[..size]) == s[..FitLen(s, size)]
  {
    if CharLen(s[0]) > size {
      DecodeTruncatedInFirst(s, size);
    } else {
      DecodeTruncated(s[1..], size - CharLen(s[0]));
      DecodeTruncatedAfterFirst(s, size);
    }
  }

  /** The cut falls inside the first code point: nothing is kept. */
  lemma DecodeTruncatedInFirst(s: string, size: nat)
    requires s != [] && size < CharLen(s[0])
    ensures Decode(Encode(s)[..size]) == s[..FitLen(s, size)]
  {
    var c := s[0];
    assert Encode(s) == EncodeChar(c) + Encode(s[1..]);
    assert FitLen(s, size) == 0;
    assert Encode(s)[..size] == EncodeChar(c)[..size];
    DecodePartialChar(c, size);
  }

  /** The cut falls after the first code point: it is kept, followed by what the rest keeps. */
  lemma DecodeTruncatedAfterFirst(s: string, size: nat)
    requires s != [] && CharLen(s[0]) <= size < |Encode(s)|
    requires size - CharLen(s[0]) < |Encode(s[1..])|
    requires Decode(Encode(s[1..])[..size - CharLen(s[0])]) == s[1..][..FitLen(s[1..], size - CharLen(s[0]))]
    ensures Decode(Encode(s)[..size]) == s[..FitLen(s, size)]
  {
    TruncateAfterFirst(s, size);
    DecodeKeepsFirst(s[0], Encode(s[1..])[..size - CharLen(s[0])], s[1..][..FitLen(s[1..], size - CharLen(s[0]))]);
    FitLenPrefix(s, size);
  }

  /** A whole code point in front of some bytes is decoded in front of what they decode to. */
  lemma DecodeKeepsFirst(c: char, rest: seq<byte>, tail: string)
    requires Decode(rest) == tail
    ensures Decode(EncodeChar(c) + rest) == [c] + tail
  {
    DecodeEncodeChar(c, rest);
  }

  /** Cutting after the first code point keeps it whole in front of the cut rest. */
  lemma TruncateAfterFirst(s: string, size: nat)
    requires s != [] && CharLen(s[0]) <= size <= |Encode(s)|
    ensures size - CharLen(s[0]) <= |Encode(s[1..])|
    ensures Encode(s)[..size] == EncodeChar(s[0]) + Encode(s[1..])[..size - CharLen(s[0])]
  {
    assert Encode(s) == EncodeChar(s[0]) + Encode(s[1..]);
  }

  /** A first code point that fits is kept, followed by what fits of the rest in what remains. */
  lemma FitLenPrefix(s: string, size: nat)
    requires s != [] && CharLen(s[0]) <= size
    ensures s[..FitLen(s, size)] == [s[0]] + s[1..][..FitLen(s[1..], size - CharLen(s[0]))]
  {
    var k := FitLen(s[1..], size - CharLen(s[0]));
    assert FitLen(s, size) == 1 + k;
    assert s[..1 + k] == [s[0]] + s[1..][..k];
  }
}
