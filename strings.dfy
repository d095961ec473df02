/** The pieces of Python's string handling that the interpreter relies on:
    `str.split(" ")`, `",".join(...)`, `int(...)`, `float(...)`, `str(n)` and
    `str.strip()`, on the ASCII text that scripts are read as. */
module Strings {
  import opened Wrappers

  // ---------------------------------------------------------------------
  // split and join

  /** `s.split(sep)`: cut at EVERY occurrence of `sep`, so two separators in a
      row give an empty piece, and the result is never empty. */
  function Split(s: string, sep: char): (parts: seq<string>)
    ensures |parts| >= 1
    ensures forall i :: 0 <= i < |parts| ==> sep !in parts[i]
    decreases |s|
  {
    if s == [] then [[]]
    else
      var rest := Split(s[1..], sep);
      if s[0] == sep then [[]] + rest
      else [[s[0]] + rest[0]] + rest[1..]
  }

  /** `sep.join(parts)`. */
  function Join(sep: char, parts: seq<string>): string
    decreases |parts|
  {
    if |parts| == 0 then []
    else if |parts| == 1 then parts[0]
    else parts[0] + [sep] + Join(sep, parts[1..])
  }

  /** Joining the pieces of a split gives back the original text. */
  lemma {:induction false} JoinSplit(s: string, sep: char)
    ensures Join(sep, Split(s, sep)) == s
    decreases |s|
  {
    if s != [] {
      var rest := Split(s[1..], sep);
      JoinSplit(s[1..], sep);
      if s[0] == sep {
        assert Split(s, sep) == [[]] + rest;
        assert ([[]] + rest)[1..] == rest;
      } else {
        var parts := [[s[0]] + rest[0]] + rest[1..];
        assert Split(s, sep) == parts;
        if |rest| == 1 {
          assert Join(sep, rest) == rest[0];
        } else {
          assert parts[1..] == rest[1..];
          assert Join(sep, rest) == rest[0] + [sep] + Join(sep, rest[1..]);
        }
      }
    }
  }

  /** Splitting text that starts with a separator-free prefix glues the
      prefix onto the first piece. */
  lemma {:induction false} SplitPrefix(p: string, s: string, sep: char)
    requires sep !in p
    ensures Split(p + s, sep) == [p + Split(s, sep)[0]] + Split(s, sep)[1..]
    decreases |p|
  {
    if p != [] {
      assert (p + s)[0] == p[0];
      assert (p + s)[1..] == p[1..] + s;
      SplitPrefix(p[1..], s, sep);
      assert [p[0]] + (p[1..] + Split(s, sep)[0]) == p + Split(s, sep)[0];
    } else {
      var parts := Split(s, sep);
      assert p + s == s;
      assert p + parts[0] == parts[0];
      assert [parts[0]] + parts[1..] == parts;
    }
  }

  /** Splitting the join of separator-free pieces gives back the pieces. */
  lemma {:induction false} SplitJoin(parts: seq<string>, sep: char)
    requires |parts| >= 1
    requires forall i :: 0 <= i < |parts| ==> sep !in parts[i]
    ensures Split(Join(sep, parts), sep) == parts
    decreases |parts|
  {
    if |parts| == 1 {
      SplitPrefix(parts[0], [], sep);
      assert parts[0] + [] == parts[0];
    } else {
      var tail := Join(sep, parts[1..]);
      SplitJoin(parts[1..], sep);
      assert Join(sep, parts) == parts[0] + ([sep] + tail);
      SplitPrefix(parts[0], [sep] + tail, sep);
      assert ([sep] + tail)[1..] == tail;
      assert Split([sep] + tail, sep) == [[]] + parts[1..];
      assert parts[0] + [] == parts[0];
    }
  }

  // ---------------------------------------------------------------------
  // integers: `int(token)` and `str(n)`

  predicate IsDigit(c: char) { '0' <= c <= '9' }

  predicate AllDigits(s: string) { forall i :: 0 <= i < |s| ==> IsDigit(s[i]) }

  function DigitValue(c: char): nat
    requires IsDigit(c)
  {
    (c as int) - ('0' as int)
  }

  function DigitChar(d: nat): (c: char)
    requires d < 10
    ensures IsDigit(c) && DigitValue(c) == d
  {
    (('0' as int) + d) as char
  }

  /** The value of a string of decimal digits, most significant first. */
  function DigitsValue(s: string): nat
    requires AllDigits(s)
    decreases |s|
  {
    if s == [] then 0 else DigitsValue(s[..|s| - 1]) * 10 + DigitValue(s[|s| - 1])
  }

  /** `int(token)` for tokens of the ASCII scripts: an optional sign and at
      least one decimal digit; anything else raises `ValueError` (None). */
  function ParseInt(s: string): Option<int>
  {
    if |s| > 0 && (s[0] == '-' || s[0] == '+') then
      var body := s[1..];
      if |body| > 0 && AllDigits(body) then
        Some(if s[0] == '-' then -(DigitsValue(body) as int) else DigitsValue(body))
      else None
    else if |s| > 0 && AllDigits(s) then Some(DigitsValue(s))
    else None
  }

  /** `str(n)` for a non-negative integer. */
  function NatToString(n: nat): (s: string)
    ensures |s| > 0 && AllDigits(s)
    decreases n
  {
    if n < 10 then [DigitChar(n)] else NatToString(n / 10) + [DigitChar(n % 10)]
  }

  /** `str(n)`. */
  function IntToString(n: int): string
  {
    if n < 0 then "-" + NatToString(-n) else NatToString(n)
  }

  lemma {:induction false} DigitsValueOfNatToString(n: nat)
    ensures DigitsValue(NatToString(n)) == n
    decreases n
  {
    if n >= 10 {
      DigitsValueOfNatToString(n / 10);
      var s := NatToString(n);
      assert s[..|s| - 1] == NatToString(n / 10);
    }
  }

  /** `int(str(n)) == n`: formatting an integer and reading it back is the
      identity. */
  lemma ParseIntOfIntToString(n: int)
    ensures ParseInt(IntToString(n)) == Some(n)
  {
    if n < 0 {
      var body := NatToString(-n);
      DigitsValueOfNatToString(-n);
      assert IntToString(n)[1..] == body;
    } else {
      DigitsValueOfNatToString(n);
    }
  }

  // ---------------------------------------------------------------------
  // floats: `float(token)`

  function Pow10(e: nat): (p: nat)
    ensures p >= 1
  {
    if e == 0 then 1 else 10 * Pow10(e - 1)
  }

  /** The index of the first character satisfying `IsExponentMark`, or |s|. */
  function ExponentIndex(s: string): (k: nat)
    ensures k <= |s|
    ensures forall i :: 0 <= i < k ==> s[i] != 'e' && s[i] != 'E'
    ensures k < |s| ==> s[k] == 'e' || s[k] == 'E'
    decreases |s|
  {
    if s == [] || s[0] == 'e' || s[0] == 'E' then 0 else 1 + ExponentIndex(s[1..])
  }

  /** The index of the first '.', or |s|. */
  function DotIndex(s: string): (k: nat)
    ensures k <= |s|
    ensures forall i :: 0 <= i < k ==> s[i] != '.'
    ensures k < |s| ==> s[k] == '.'
    decreases |s|
  {
    if s == [] || s[0] == '.' then 0 else 1 + DotIndex(s[1..])
  }

  /** A decimal mantissa: digits with at most one '.', and at least one digit. */
  function ParseMantissa(m: string): Option<real>
  {
    var d := DotIndex(m);
    var whole := m[..d];
    var frac := if d < |m| then m[d + 1..] else [];
    if AllDigits(whole) && AllDigits(frac) && |whole| + |frac| > 0 then
      Some(MantissaValue(whole, frac))
    else None
  }

  /** The value of `whole.frac` read as decimal digits. */
  function MantissaValue(whole: string, frac: string): real
    requires AllDigits(whole) && AllDigits(frac)
  {
    DigitsValue(whole) as real + DigitsValue(frac) as real / Pow10(|frac|) as real
  }

  /** With no fractional digits the mantissa is the whole part. */
  lemma MantissaValueWhole(whole: string)
    requires AllDigits(whole)
    ensures MantissaValue(whole, []) == DigitsValue(whole) as real
  {
    assert DigitsValue([]) == 0 && Pow10(0) == 1;
  }

  function ScaleByPowerOfTen(v: real, e: int): real
  {
    if e >= 0 then v * Pow10(e) as real else v / Pow10(-e) as real
  }

  /** An unsigned decimal literal with an optional exponent (`e`/`E`,
      optional sign, digits). */
  function ParseUnsignedFloat(s: string): Option<real>
  {
    var k := ExponentIndex(s);
    match ParseMantissa(s[..k])
    case None => None
    case Some(m) =>
      if k == |s| then Some(m)
      else
        match ParseInt(s[k + 1..])
        case None => None
        case Some(e) => Some(ScaleByPowerOfTen(m, e))
  }

  /** `float(token)` for decimal literals: an optional sign, then an
      unsigned decimal literal; anything else raises `ValueError` (None). */
  function ParseFloat(s: string): Option<real>
  {
    var neg := |s| > 0 && s[0] == '-';
    var body := if |s| > 0 && (s[0] == '-' || s[0] == '+') then s[1..] else s;
    match ParseUnsignedFloat(body)
    case None => None
    case Some(v) => Some(if neg then -v else v)
  }

  lemma {:induction false} ExponentIndexOfDigits(s: string)
    requires AllDigits(s)
    ensures ExponentIndex(s) == |s|
    decreases |s|
  {
    if s != [] {
      ExponentIndexOfDigits(s[1..]);
    }
  }

  lemma {:induction false} DotIndexOfDigits(s: string)
    requires AllDigits(s)
    ensures DotIndex(s) == |s|
    decreases |s|
  {
    if s != [] {
      DotIndexOfDigits(s[1..]);
    }
  }

  lemma ParseMantissaOfDigits(s: string)
    requires |s| > 0 && AllDigits(s)
    ensures ParseMantissa(s) == Some(DigitsValue(s) as real)
  {
    DotIndexOfDigits(s);
    assert s[..|s|] == s;
    var frac: string := [];
    assert AllDigits(frac);
    assert ParseMantissa(s) == Some(MantissaValue(s, frac));
    MantissaValueWhole(s);
  }

  lemma ParseUnsignedFloatOfDigits(s: string)
    requires |s| > 0 && AllDigits(s)
    ensures ParseUnsignedFloat(s) == Some(DigitsValue(s) as real)
  {
    ExponentIndexOfDigits(s);
    assert s[..|s|] == s;
    ParseMantissaOfDigits(s);
  }

  /** `float(str(n)) == n`: every integer token is also a float token of the
      same value. */
  lemma ParseFloatOfIntToString(n: int)
    ensures ParseFloat(IntToString(n)) == Some(n as real)
  {
    var s := IntToString(n);
    if n < 0 {
      var body := NatToString(-n);
      assert s == "-" + body && s[0] == '-' && s[1..] == body;
      ParseUnsignedFloatOfDigits(body);
      DigitsValueOfNatToString(-n);
      assert ParseUnsignedFloat(body) == Some((-n) as real);
    } else {
      ParseUnsignedFloatOfDigits(s);
      DigitsValueOfNatToString(n);
      assert IsDigit(s[0]);
      assert ParseUnsignedFloat(s) == Some(n as real);
    }
  }

  // ---------------------------------------------------------------------
  // str.strip()

  /** `c.isspace()` for the ASCII characters a script file can hold. */
  predicate IsSpace(c: char)
  {
    // space, then \t \n \v \f \r (9..13), then the separators 28..31
    c == ' ' || 9 <= c as int <= 13 || 28 <= c as int <= 31
  }

  /** The number of whitespace characters `s` starts with. */
  function LeadingSpace(s: string): (n: nat)
    ensures n <= |s|
    ensures forall k :: 0 <= k < n ==> IsSpace(s[k])
    ensures n == |s| || !IsSpace(s[n])
    decreases |s|
  {
    if s != [] && IsSpace(s[0]) then 1 + LeadingSpace(s[1..]) else 0
  }

  /** Where the whitespace `s` ends with begins. */
  function TrailingSpace(s: string): (n: nat)
    ensures n <= |s|
    ensures forall k :: n <= k < |s| ==> IsSpace(s[k])
    ensures n == 0 || !IsSpace(s[n - 1])
    decreases |s|
  {
    if s != [] && IsSpace(s[|s| - 1]) then TrailingSpace(s[..|s| - 1]) else |s|
  }

  /** `s.lstrip()`: drop the leading whitespace. */
  function StripLeft(s: string): string
  {
    s[LeadingSpace(s)..]
  }

  /** `s.rstrip()`: drop the trailing whitespace. */
  function StripRight(s: string): string
  {
    s[..TrailingSpace(s)]
  }

  /** `s.strip()`. */
  function Strip(s: string): string
  {
    StripRight(StripLeft(s))
  }

  /** A stripped line has no whitespace at either end, and is what is left of
      the line after removing whitespace from both ends: `i` leading and all
      the trailing characters after `i + |Strip(s)|` are whitespace. */
  lemma StripIsTrimmedFactor(s: string)
    ensures var r := Strip(s);
      var i := LeadingSpace(s);
      && (r == [] || (!IsSpace(r[0]) && !IsSpace(r[|r| - 1])))
      && 0 <= i <= |s| - |r| && r == s[i..i + |r|]
      && (forall k :: 0 <= k < i ==> IsSpace(s[k]))
      && (forall k :: i + |r| <= k < |s| ==> IsSpace(s[k]))
  {
    StripEnds(s);
    StripSlice(s);
    StripTrailing(s);
  }

  lemma StripEnds(s: string)
    ensures var r := Strip(s); r == [] || (!IsSpace(r[0]) && !IsSpace(r[|r| - 1]))
  {
    var l := StripLeft(s);
    var r := l[..TrailingSpace(l)];
    if r != [] {
      assert r[0] == l[0] == s[LeadingSpace(s)];
      assert r[|r| - 1] == l[TrailingSpace(l) - 1];
    }
  }

  lemma StripSlice(s: string)
    ensures var i := LeadingSpace(s); 0 <= i <= |s| - |Strip(s)| && Strip(s) == s[i..i + |Strip(s)|]
  {
    var i := LeadingSpace(s);
    var n := TrailingSpace(s[i..]);
    assert Strip(s) == s[i..][..n] == s[i..i + n];
  }

  lemma StripTrailing(s: string)
    ensures var i := LeadingSpace(s); forall k :: i + |Strip(s)| <= k < |s| ==> IsSpace(s[k])
  {
    var i := LeadingSpace(s);
    var l := s[i..];
    var n := TrailingSpace(l);
    assert |Strip(s)| == n;
    forall k | i + n <= k < |s|
      ensures IsSpace(s[k])
    {
      assert s[k] == l[k - i];
    }
  }

  /** Stripping twice is the same as stripping once. */
  lemma {:induction false} StripIdempotent(s: string)
    ensures Strip(Strip(s)) == Strip(s)
  {
    var r := Strip(s);
    if r != [] {
      StripIsTrimmedFactor(s);
      assert StripLeft(r) == r;
      assert StripRight(r) == r;
    }
  }
}
