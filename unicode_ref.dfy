/** `ParseXMLUnicode` (src/font.cpp): reads the code point of a glyph's
    `unicode` attribute or of one item of a kerning `u1`/`u2` list.  Three
    forms are accepted: one byte, a numeric character reference as in
    section 4.1 of XML 1.0 (`&#65;`, `&#x41;`), or one whole UTF-8 sequence
    as in section 3 of RFC 3629. */
module UnicodeRef {
  import opened Wrappers
  import opened Chars
  import Utf8

  /** What the C function reports: true with the code point written
      (`Code`), true with the out-parameter left unwritten because the number
      after `&#` did not scan (`Unscanned`), or false (`Rejected`). */
  datatype UnicodeRef = Code(cp: int) | Unscanned | Rejected

  predicate IsHexDigit(c: char)
  {
    IsDigit(c) || 'a' <= c <= 'f' || 'A' <= c <= 'F'
  }

  function HexDigitValue(c: char): (v: nat)
    requires IsHexDigit(c)
    ensures v < 16
  {
    if IsDigit(c) then c as int - '0' as int
    else if 'a' <= c <= 'f' then c as int - 'a' as int + 10
    else c as int - 'A' as int + 10
  }

  /** Value of the hexadecimal numeral ds, read left to right. */
  function HexValue(ds: string): nat
    requires forall k :: 0 <= k < |ds| ==> IsHexDigit(ds[k])
  {
    if |ds| == 0 then 0 else HexValue(ds[..|ds| - 1]) * 16 + HexDigitValue(ds[|ds| - 1])
  }

  /** `sscanf (s + i, "%d;", out)`: white space, an optional sign and at
      least one decimal digit; None when nothing is converted. */
  function ScanDecimal(s: string, i: nat): Option<int>
    requires i <= |s|
  {
    var p := SkipWhile(s, i, IsSpace);
    var neg := p < |s| && s[p] == '-';
    var q := if p < |s| && (s[p] == '-' || s[p] == '+') then p + 1 else p;
    var e := SkipWhile(s, q, IsDigit);
    if e == q then None
    else
      var v: int := DecimalValue(s[q..e]);
      Some(if neg then -v else v)
  }

  /** `sscanf (s + i, "%x;", out)`, which converts as `strtoul` in base 16
      does: white space, an optional sign, an optional `0x` or `0X` that
      counts as a prefix only when a hexadecimal digit follows it, and at
      least one hexadecimal digit; '-' negates, in unbounded integers.
      None when nothing is converted. */
  function ScanHex(s: string, i: nat): Option<int>
    requires i <= |s|
  {
    var p := SkipWhile(s, i, IsSpace);
    if p < |s| && s[p] == '-' then
      match HexNumber(s, p + 1)
      case Some(v) => Some(-v)
      case None => None
    else if p < |s| && s[p] == '+' then HexNumber(s, p + 1)
    else HexNumber(s, p)
  }

  /** The unsigned part of `%x`: the optional prefix and the digits. */
  function HexNumber(s: string, q: nat): Option<int>
    requires q <= |s|
  {
    var d := if HasHexPrefix(s, q) then q + 2 else q;
    var e := SkipWhile(s, d, IsHexDigit);
    if e == d then None else Some(HexValue(s[d..e]))
  }

  /** `0x` or `0X` at q, followed by a hexadecimal digit. */
  predicate HasHexPrefix(s: string, q: nat)
  {
    q + 2 < |s| && s[q] == '0' && (s[q + 1] == 'x' || s[q + 1] == 'X') && IsHexDigit(s[q + 2])
  }

  /** The shape the C code tests for a character reference: `&#` ... `;`. */
  predicate IsNumericRef(repr: string)
  {
    |repr| >= 2 && repr[0] == '&' && repr[1] == '#' && repr[|repr| - 1] == ';'
  }

  /** The whole string is one well-formed UTF-8 sequence. */
  predicate IsOneUtf8(repr: string)
  {
    Utf8.Decode(repr).Some? && Utf8.Decode(repr).value.1 == |repr|
  }

  function ParseXMLUnicode(repr: string): (r: UnicodeRef)
    ensures r != Rejected <==> |repr| == 1 || IsNumericRef(repr) || IsOneUtf8(repr)
    ensures r.Unscanned? ==> IsNumericRef(repr)
  {
    if |repr| == 1 then Code(repr[0] as int)
    else if IsNumericRef(repr) then
      var v := if repr[2] == 'x' then ScanHex(repr, 3) else ScanDecimal(repr, 2);
      if v.Some? then Code(v.value) else Unscanned
    else
      match Utf8.Decode(repr)
      case Some((cp, n)) => if n == |repr| then Code(cp) else Rejected
      case None => Rejected
  }

  /** The decimal numeral of n, without leading zeros. */
  function DecimalString(n: nat): (r: string)
    ensures |r| >= 1 && forall k :: 0 <= k < |r| ==> IsDigit(r[k])
  {
    if n < 10 then [('0' as int + n) as char]
    else DecimalString(n / 10) + [('0' as int + n % 10) as char]
  }

  /** The lower-case hexadecimal numeral of n, without leading zeros. */
  function HexString(n: nat): (r: string)
    ensures |r| >= 1 && forall k :: 0 <= k < |r| ==> IsHexDigit(r[k]) && r[k] != ';'
  {
    if n < 16 then [HexChar(n)] else HexString(n / 16) + [HexChar(n % 16)]
  }

  function HexChar(d: nat): (c: char)
    requires d < 16
    ensures IsHexDigit(c) && HexDigitValue(c) == d
  {
    if d < 10 then ('0' as int + d) as char else ('a' as int + d - 10) as char
  }

  lemma {:induction false} DecimalStringValue(n: nat)
    ensures DecimalValue(DecimalString(n)) == n
  {
    var s := DecimalString(n);
    if n >= 10 {
      assert s[..|s| - 1] == DecimalString(n / 10);
      DecimalStringValue(n / 10);
    }
  }

  lemma {:induction false} HexStringValue(n: nat)
    ensures HexValue(HexString(n)) == n
  {
    var s := HexString(n);
    if n >= 16 {
      assert s[..|s| - 1] == HexString(n / 16);
      HexStringValue(n / 16);
    }
  }

  /** A run of characters that `skip` holds of, followed by one it does not
      hold of, is skipped exactly. */
  lemma SkipRun(s: string, i: nat, n: nat, skip: char -> bool)
    requires i + n < |s|
    requires forall k :: i <= k < i + n ==> skip(s[k])
    requires !skip(s[i + n])
    ensures SkipWhile(s, i, skip) == i + n
  {
  }

  /** `&#` + decimal numeral + `;` reads back as the number. */
  lemma DecimalRefRoundTrip(n: nat)
    ensures ParseXMLUnicode("&#" + DecimalString(n) + ";") == Code(n)
  {
    var ds := DecimalString(n);
    var s := "&#" + ds + ";";
    assert s[2] == ds[0] && s[|s| - 1] == ';';
    SkipRun(s, 2, 0, IsSpace);
    SkipRun(s, 2, |ds|, IsDigit);
    assert s[2..2 + |ds|] == ds;
    DecimalStringValue(n);
  }

  /** `&#x`, an optional sign, an optional `0x`/`0X` prefix, a
      hexadecimal numeral and `;` read back as the number, negated after
      '-', as `%x` reads them. */
  lemma HexRefRoundTrip(n: nat, sign: string, prefix: string)
    requires sign == "" || sign == "+" || sign == "-"
    requires prefix == "" || prefix == "0x" || prefix == "0X"
    ensures ParseXMLUnicode("&#x" + sign + prefix + HexString(n) + ";") == Code(if sign == "-" then -(n as int) else n)
  {
    var s := "&#x" + sign + prefix + HexString(n) + ";";
    assert s[0] == '&' && s[1] == '#' && s[2] == 'x' && s[|s| - 1] == ';';
    HexRefDigits(n, sign, prefix);
    HexRefSign(n, sign, prefix);
    SignedHexReads(s, 3, n);
  }

  /** The unsigned part of such a reference reads as n. */
  lemma HexRefDigits(n: nat, sign: string, prefix: string)
    requires prefix == "" || prefix == "0x" || prefix == "0X"
    ensures HexNumber("&#x" + sign + prefix + HexString(n) + ";", 3 + |sign|) == Some(n)
  {
    var ds := HexString(n);
    var a := "&#x" + sign + prefix;
    var s := a + ds + ";";
    var q := 3 + |sign|;
    Pieces(a, ds, ";");
    if prefix != "" {
      assert s[q] == '0' && s[q + 1] == prefix[1];
    }
    HexNumberReads(s, q, q + |prefix|, n);
  }

  /** The character after `&#x` is the sign, if there is one. */
  lemma HexRefSign(n: nat, sign: string, prefix: string)
    requires sign == "" || sign == "+" || sign == "-"
    requires prefix == "" || prefix == "0x" || prefix == "0X"
    ensures var s := "&#x" + sign + prefix + HexString(n) + ";";
      !IsSpace(s[3]) && (s[3] == '-' <==> sign == "-") && (s[3] == '+' <==> sign == "+")
  {
    var ds := HexString(n);
    var a := "&#x" + sign + prefix;
    Pieces(a, ds, ";");
    var s := a + ds + ";";
    if sign == "" {
      assert s[3] == if prefix != "" then '0' else ds[0];
    } else {
      assert s[3] == sign[0];
    }
  }

  /** A sign is read before the unsigned part, and '-' negates it. */
  lemma SignedHexReads(s: string, p: nat, n: nat)
    requires p < |s| && !IsSpace(s[p])
    requires HexNumber(s, if s[p] == '-' || s[p] == '+' then p + 1 else p) == Some(n)
    ensures ScanHex(s, p) == Some(if s[p] == '-' then -(n as int) else n)
  {
    SkipRun(s, p, 0, IsSpace);
  }

  /** Where the middle of a three-part concatenation lies. */
  lemma Pieces(a: string, b: string, c: string)
    requires |b| >= 1 && |c| >= 1
    ensures (a + b + c)[|a|..|a| + |b|] == b
    ensures (a + b + c)[|a| + |b|] == c[0]
    ensures (a + b + c)[|a|] == b[0]
    ensures |b| >= 2 ==> (a + b + c)[|a| + 1] == b[1]
    ensures forall k :: 0 <= k < |a| ==> (a + b + c)[k] == a[k]
  {
  }

  /** An optional `0x`/`0X` prefix from q, then from d a hexadecimal
      numeral and ';': `HexNumber` reads the numeral's value. */
  lemma HexNumberReads(s: string, q: nat, d: nat, n: nat)
    requires q <= d && d + |HexString(n)| < |s|
    requires d == q || (d == q + 2 && s[q] == '0' && (s[q + 1] == 'x' || s[q + 1] == 'X'))
    requires s[d..d + |HexString(n)|] == HexString(n)
    requires s[d + |HexString(n)|] == ';'
    ensures HexNumber(s, q) == Some(n)
  {
    var ds := HexString(n);
    assert s[d] == ds[0];
    assert HasHexPrefix(s, q) <==> d == q + 2 by {
      if d == q {
        if |ds| > 1 { assert s[q + 1] == ds[1]; } else { assert s[q + 1] == ';'; }
      }
    }
    NumeralRun(s, d, ds);
    HexStringValue(n);
  }

  /** The digit run of a hexadecimal numeral ended by ';' is skipped
      exactly. */
  lemma NumeralRun(s: string, d: nat, ds: string)
    requires d + |ds| < |s| && s[d..d + |ds|] == ds && s[d + |ds|] == ';'
    requires forall k :: 0 <= k < |ds| ==> IsHexDigit(ds[k])
    ensures SkipWhile(s, d, IsHexDigit) == d + |ds|
  {
    assert forall k :: d <= k < d + |ds| ==> s[k] == ds[k - d];
    SkipRun(s, d, |ds|, IsHexDigit);
  }

  /** A `0x` with no hexadecimal digit after it is not a prefix: the `0`
      is the number. */
  lemma BareHexPrefixReadsZero()
    ensures ParseXMLUnicode("&#x0x;") == Code(0)
  {
    var s := "&#x0x;";
    assert s[3] == '0' && s[4] == 'x' && s[5] == ';';
    assert !HasHexPrefix(s, 3);
    SkipRun(s, 3, 0, IsSpace);
    SkipRun(s, 3, 1, IsHexDigit);
    assert s[3..4] == "0";
    assert HexValue("0") == 0 by { assert "0"[..0] == ""; }
  }

  /** The UTF-8 form of any scalar value reads back as that value. */
  lemma Utf8RoundTrip(cp: int)
    requires Utf8.IsScalar(cp)
    ensures ParseXMLUnicode(Utf8.Encode(cp)) == Code(cp)
  {
    var s := Utf8.Encode(cp);
    Utf8.DecodeEncode(cp, []);
    assert s + [] == s;
  }

  /** Two or more bytes that start with an ASCII character other than '&'
      are neither a reference nor one UTF-8 sequence: rejected. */
  lemma AsciiWordRejected(repr: string)
    requires |repr| >= 2 && repr[0] != '&' && repr[0] as int < 0x80
    ensures ParseXMLUnicode(repr) == Rejected
  {
  }

  /** A reference whose number does not scan is still accepted, and leaves
      the code point unwritten. */
  lemma EmptyReferenceAccepted()
    ensures ParseXMLUnicode("&#;") == Unscanned
    ensures ParseXMLUnicode("&#x;") == Unscanned
  {
    assert SkipWhile("&#;", 2, IsSpace) == 2;
    assert SkipWhile("&#;", 2, IsDigit) == 2;
    assert SkipWhile("&#x;", 3, IsSpace) == 3;
    assert SkipWhile("&#x;", 3, IsHexDigit) == 3;
  }
}
