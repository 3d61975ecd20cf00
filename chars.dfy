/** Character classes of the C locale and the small text scanners of the C
    library that the font engine relies on: `isspace`, `isdigit`, `isupper`,
    `tolower`, `atoi`, and stand-ins for the repository's own `ParseFloat`,
    `split` and `StrCaseCompare`, whose bodies are not part of this model. */
module Chars {
  import opened Wrappers

  /** The byte at offset i of a NUL-terminated C string holding s. */
  function At(s: string, i: nat): char
  {
    if i < |s| then s[i] else '\0'
  }

  /** A C string: no NUL byte inside it. */
  predicate NulFree(s: string)
  {
    forall i :: 0 <= i < |s| ==> s[i] != '\0'
  }

  /** `isspace` in the C locale: space, \t, \n, \v, \f, \r. */
  predicate IsSpace(c: char)
  {
    c == ' ' || 9 <= c as int <= 13
  }

  /** `isspace` applied to a code point. */
  predicate IsSpaceCode(c: int)
  {
    c == 32 || 9 <= c <= 13
  }

  predicate IsDigit(c: char)
  {
    '0' <= c <= '9'
  }

  predicate IsUpper(c: char)
  {
    'A' <= c <= 'Z'
  }

  function ToLower(c: char): (r: char)
    ensures IsUpper(c) ==> r as int == c as int + 32
    ensures !IsUpper(c) ==> r == c
  {
    if IsUpper(c) then (c as int + 32) as char else c
  }

  /** Value of a decimal digit. */
  function DigitValue(c: char): nat
    requires IsDigit(c)
  {
    c as int - '0' as int
  }

  /** Index of the first element at or after i that `skip` does not hold
      of: the `while (skip (*s)) s++;` idiom, on characters or code points. */
  function SkipWhile<T>(s: seq<T>, i: nat, skip: T -> bool): (r: nat)
    requires i <= |s|
    ensures i <= r <= |s|
    ensures forall k :: i <= k < r ==> skip(s[k])
    ensures r < |s| ==> !skip(s[r])
    decreases |s| - i
  {
    if i < |s| && skip(s[i]) then SkipWhile(s, i + 1, skip) else i
  }

  /** Value of the decimal numeral ds, read left to right. */
  function DecimalValue(ds: string): nat
    requires forall k :: 0 <= k < |ds| ==> IsDigit(ds[k])
  {
    if |ds| == 0 then 0 else DecimalValue(ds[..|ds| - 1]) * 10 + DigitValue(ds[|ds| - 1])
  }

  /** `atoi`: leading white space, an optional sign, then the longest run of
      decimal digits; 0 when there are none.  Overflow is not modelled. */
  function Atoi(s: string): int
  {
    var p := SkipWhile(s, 0, IsSpace);
    var neg := p < |s| && s[p] == '-';
    var q := if p < |s| && (s[p] == '-' || s[p] == '+') then p + 1 else p;
    var e := SkipWhile(s, q, IsDigit);
    var v: int := DecimalValue(s[q..e]);
    if neg then -v else v
  }

  /** The run of decimal digits starting at p, read onto acc, and the index
      just after it. */
  function Digits(s: string, p: nat, acc: nat): (r: (nat, nat))
    requires p <= |s|
    ensures p <= r.1 <= |s|
    decreases |s| - p
  {
    if p < |s| && IsDigit(s[p]) then Digits(s, p + 1, acc * 10 + DigitValue(s[p]))
    else (acc, p)
  }
  /** `Digits` stops exactly at the end of the run of digits from p. */
  lemma {:induction false} DigitsRun(s: string, p: nat, acc: nat)
    requires p <= |s|
    ensures Digits(s, p, acc).1 == SkipWhile(s, p, IsDigit)
    decreases |s| - p
  {
    if p < |s| && IsDigit(s[p]) {
      DigitsRun(s, p + 1, acc * 10 + DigitValue(s[p]));
    }
  }


  /** Stand-in for the repository's `ParseFloat`: an optional sign, digits,
      optionally '.' and more digits, with at least one digit in all.  Returns
      the value and the index just after the number. */
  function ScanFloat(s: string, i: nat): (r: Option<(real, nat)>)
    requires i <= |s|
    ensures r.Some? ==> i < r.value.1 <= |s|
  {
    var neg := i < |s| && s[i] == '-';
    var p := if i < |s| && (s[i] == '-' || s[i] == '+') then i + 1 else i;
    var whole := Digits(s, p, 0);
    var e := whole.1;
    if e < |s| && s[e] == '.' then
      var frac := Digits(s, e + 1, 0);
      var f := frac.1;
      if e == p && f == e + 1 then None
      else
        var v := whole.0 as real + frac.0 as real / Pow10(f - e - 1) as real;
        Some((if neg then -v else v, f))
    else if e == p then None
    else Some((if neg then -(whole.0 as real) else whole.0 as real, e))
  }

  function Pow10(n: nat): (r: nat)
    ensures r >= 1
  {
    if n == 0 then 1 else 10 * Pow10(n - 1)
  }

  /** `StrCaseCompare(a, b) == 0` for ASCII names. */
  predicate SameName(a: string, b: string)
  {
    |a| == |b| && forall k :: 0 <= k < |a| ==> ToLower(a[k]) == ToLower(b[k])
  }

  /** Stand-in for the repository's `split (s, ',', list)`: the pieces between
      commas, left to right; the empty string gives no pieces. */
  function Split(s: string, sep: char): (r: seq<string>)
    ensures s == [] <==> r == []
    ensures forall k :: 0 <= k < |r| ==> sep !in r[k]
    decreases |s|
  {
    if s == [] then []
    else
      var e := SkipWhile(s, 0, c => c != sep);
      if e == |s| then [s]
      else [s[..e]] + (if e + 1 == |s| then [[]] else Split(s[e + 1..], sep))
  }
}
