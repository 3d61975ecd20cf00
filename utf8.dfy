/** A decoder and encoder for one code point in UTF-8, as section 3 of
    RFC 3629 defines it (the table of well-formed byte sequences is in
    section 4).  Bytes are characters below 256.  The engine calls a helper
    `next_from_utf8` whose body is not part of this model; this decoder
    stands in for it where a single code point is read from an attribute. */
module Utf8 {
  import opened Wrappers

  /** A Unicode scalar value: a code point that is not a surrogate. */
  predicate IsScalar(cp: int)
  {
    0 <= cp <= 0x10FFFF && !(0xD800 <= cp <= 0xDFFF)
  }

  predicate IsCont(c: char)
  {
    0x80 <= c as int <= 0xBF
  }

  /** The six payload bits of a continuation byte. */
  function Low(c: char): int
  {
    c as int - 0x80
  }

  /** The range RFC 3629 allows for the second byte, given the first. */
  predicate SecondOk(b0: int, c: char)
  {
    var b := c as int;
    if b0 == 0xE0 then 0xA0 <= b <= 0xBF
    else if b0 == 0xED then 0x80 <= b <= 0x9F
    else if b0 == 0xF0 then 0x90 <= b <= 0xBF
    else if b0 == 0xF4 then 0x80 <= b <= 0x8F
    else 0x80 <= b <= 0xBF
  }

  /** Decodes the code point at the start of s: its value and how many bytes
      it takes, or None when s does not start with a well-formed sequence. */
  function Decode(s: string): (r: Option<(int, nat)>)
    ensures r.Some? ==> 1 <= r.value.1 <= 4 && r.value.1 <= |s| && IsScalar(r.value.0)
    ensures r.Some? && r.value.1 == 1 <==> |s| > 0 && s[0] as int < 0x80
  {
    if |s| == 0 then None
    else
      var b0 := s[0] as int;
      if b0 < 0x80 then Some((b0, 1))
      else if 0xC2 <= b0 <= 0xDF then
        if |s| >= 2 && IsCont(s[1]) then Some(((b0 - 0xC0) * 64 + Low(s[1]), 2)) else None
      else if 0xE0 <= b0 <= 0xEF then
        if |s| >= 3 && SecondOk(b0, s[1]) && IsCont(s[2])
        then Some(((b0 - 0xE0) * 4096 + Low(s[1]) * 64 + Low(s[2]), 3))
        else None
      else if 0xF0 <= b0 <= 0xF4 then
        if |s| >= 4 && SecondOk(b0, s[1]) && IsCont(s[2]) && IsCont(s[3])
        then Some(((b0 - 0xF0) * 262144 + Low(s[1]) * 4096 + Low(s[2]) * 64 + Low(s[3]), 4))
        else None
      else None
  }

  /** The shortest UTF-8 form of a scalar value. */
  function Encode(cp: int): (r: string)
    requires IsScalar(cp)
    ensures 1 <= |r| <= 4
    ensures forall k :: 0 <= k < |r| ==> r[k] as int < 256
  {
    if cp < 0x80 then [cp as char]
    else if cp < 0x800 then [(0xC0 + cp / 64) as char, (0x80 + cp % 64) as char]
    else if cp < 0x10000 then
      [(0xE0 + cp / 4096) as char, (0x80 + cp / 64 % 64) as char, (0x80 + cp % 64) as char]
    else
      [(0xF0 + cp / 262144) as char, (0x80 + cp / 4096 % 64) as char,
       (0x80 + cp / 64 % 64) as char, (0x80 + cp % 64) as char]
  }

  /** Splitting a number into a quotient and a remainder by 64 and putting
      the two back together are inverse. */
  lemma Split64(v: int, hi: int, lo: int)
    requires 0 <= lo < 64
    ensures v == hi * 64 + lo <==> v / 64 == hi && v % 64 == lo
  {
    if v == hi * 64 + lo {
      assert v / 64 == hi && v % 64 == lo;
    }
  }

  /** Decoding the encoding of a scalar value gives it back, whatever follows. */
  lemma DecodeEncode(cp: int, rest: string)
    requires IsScalar(cp)
    ensures Decode(Encode(cp) + rest) == Some((cp, |Encode(cp)|))
  {
    var s := Encode(cp) + rest;
    Split64(cp, cp / 64, cp % 64);
    Split64(cp / 64, cp / 4096, cp / 64 % 64);
    Split64(cp / 4096, cp / 262144, cp / 4096 % 64);
    assert cp / 4096 == cp / 64 / 64 && cp / 262144 == cp / 4096 / 64;
    if cp < 0x80 {
    } else if cp < 0x800 {
      assert s[0] as int == 0xC0 + cp / 64 && Low(s[1]) == cp % 64;
    } else if cp < 0x10000 {
      assert s[0] as int == 0xE0 + cp / 4096 && Low(s[1]) == cp / 64 % 64 && Low(s[2]) == cp % 64;
    } else {
      assert s[0] as int == 0xF0 + cp / 262144 && Low(s[1]) == cp / 4096 % 64;
      assert Low(s[2]) == cp / 64 % 64 && Low(s[3]) == cp % 64;
    }
  }

  lemma DivDiv64(v: int)
    requires v >= 0
    ensures v / 4096 == v / 64 / 64 && v / 262144 == v / 4096 / 64
  {
    var q1, q2, q3 := v / 64, v / 64 / 64, v / 64 / 64 / 64;
    assert v == q2 * 4096 + (q1 % 64) * 64 + v % 64;
    assert v == q3 * 262144 + (q2 % 64) * 4096 + (q1 % 64) * 64 + v % 64;
  }

  /** A well-formed sequence is the encoding of the value it decodes to, so
      every scalar value has exactly one UTF-8 form. */
  lemma EncodeDecode(s: string)
    requires Decode(s).Some?
    ensures s[..Decode(s).value.1] == Encode(Decode(s).value.0)
  {
    var cp, n := Decode(s).value.0, Decode(s).value.1;
    if n == 2 {
      EncodeDecode2(s[0], s[1], cp);
      assert s[..2] == [s[0], s[1]];
    } else if n == 3 {
      EncodeDecode3(s[0], s[1], s[2], cp);
      assert s[..3] == [s[0], s[1], s[2]];
    } else if n == 4 {
      EncodeDecode4(s[0], s[1], s[2], s[3], cp);
      assert s[..4] == [s[0], s[1], s[2], s[3]];
    }
  }

  lemma EncodeDecode2(b0: char, b1: char, cp: int)
    requires 0xC2 <= b0 as int <= 0xDF && IsCont(b1)
    requires cp == (b0 as int - 0xC0) * 64 + Low(b1)
    ensures IsScalar(cp) && Encode(cp) == [b0, b1]
  {
    Split64(cp, b0 as int - 0xC0, Low(b1));
  }

  lemma EncodeDecode3(b0: char, b1: char, b2: char, cp: int)
    requires 0xE0 <= b0 as int <= 0xEF && SecondOk(b0 as int, b1) && IsCont(b2)
    requires cp == (b0 as int - 0xE0) * 4096 + Low(b1) * 64 + Low(b2)
    ensures IsScalar(cp) && Encode(cp) == [b0, b1, b2]
  {
    var a, b, c := b0 as int - 0xE0, Low(b1), Low(b2);
    DivDiv64(cp);
    Split64(cp, a * 64 + b, c);
    Split64(a * 64 + b, a, b);
  }

  lemma EncodeDecode4(b0: char, b1: char, b2: char, b3: char, cp: int)
    requires 0xF0 <= b0 as int <= 0xF4 && SecondOk(b0 as int, b1) && IsCont(b2) && IsCont(b3)
    requires cp == (b0 as int - 0xF0) * 262144 + Low(b1) * 4096 + Low(b2) * 64 + Low(b3)
    ensures IsScalar(cp) && Encode(cp) == [b0, b1, b2, b3]
  {
    var a, b, c, d := b0 as int - 0xF0, Low(b1), Low(b2), Low(b3);
    DivDiv64(cp);
    Split64(cp, (a * 64 + b) * 64 + c, d);
    Split64((a * 64 + b) * 64 + c, a * 64 + b, c);
    Split64(a * 64 + b, a, b);
  }
}
