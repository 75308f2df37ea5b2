/** The C string cursor and number conversions the ComputeStrain option
    parsers rely on: reading a character past the end of a string gives NUL,
    strtoul and strtod consume a run of decimal digits, and static_cast<int>
    keeps the low 32 bits of an unsigned long.  Leading white space, signs,
    exponents, hexadecimal and the "inf"/"nan" spellings that the C library
    also accepts are not part of this model. */
module CNumbers {

  /** The character `*(s + p)` of a C string: NUL at and past its end. */
  function At(s: string, p: int): char
  {
    if 0 <= p < |s| then s[p] else '\0'
  }

  predicate IsDigit(c: char)
  {
    '0' <= c <= '9'
  }

  /** s holds a digit at position k. */
  predicate DigitAt(s: string, k: int)
  {
    0 <= k < |s| && IsDigit(s[k])
  }

  /** s[p..e] is a run of decimal digits. */
  predicate DigitsIn(s: string, p: nat, e: nat)
  {
    p <= e <= |s| && forall k :: p <= k < e ==> DigitAt(s, k)
  }

  predicate AllDigits(d: string)
  {
    DigitsIn(d, 0, |d|)
  }

  function DigitValue(c: char): nat
    requires IsDigit(c)
  {
    c as int - '0' as int
  }

  /** Value of the digits s[p..e], most significant first. */
  function DigitsValue(s: string, p: nat, e: nat): nat
    requires DigitsIn(s, p, e)
    decreases e - p
  {
    if e == p then 0
    else
      assert DigitAt(s, e - 1);
      DigitsValue(s, p, e - 1) * 10 + DigitValue(s[e - 1])
  }

  /** Value of a run of decimal digits. */
  function DecimalValue(d: string): nat
    requires AllDigits(d)
  {
    DigitsValue(d, 0, |d|)
  }

  /** Every run of digits ends, at the latest at the end of the string. */
  lemma {:induction false} DigitRunEnds(s: string, p: nat)
    requires p <= |s|
    ensures exists e: nat :: DigitsIn(s, p, e) && !IsDigit(At(s, e))
    decreases |s| - p
  {
    if p < |s| && IsDigit(s[p]) {
      DigitRunEnds(s, p + 1);
      var e: nat :| DigitsIn(s, p + 1, e) && !IsDigit(At(s, e));
      assert DigitsIn(s, p, e);
    } else {
      assert DigitsIn(s, p, p);
    }
  }

  /** A run of digits has only one end. */
  lemma DigitRunEndUnique(s: string, p: nat)
    ensures forall e1: nat, e2: nat ::
      DigitsIn(s, p, e1) && !IsDigit(At(s, e1)) && DigitsIn(s, p, e2) && !IsDigit(At(s, e2)) ==> e1 == e2
  {
    forall e1: nat, e2: nat | DigitsIn(s, p, e1) && !IsDigit(At(s, e1)) && DigitsIn(s, p, e2) && !IsDigit(At(s, e2))
      ensures e1 == e2
    {
      assert e1 < e2 ==> DigitAt(s, e1);
      assert e2 < e1 ==> DigitAt(s, e2);
    }
  }

  /** Where the run of decimal digits starting at p ends: the first position
      from p on that holds no digit. */
  function DigitsEnd(s: string, p: nat): (e: nat)
    requires p <= |s|
    ensures DigitsIn(s, p, e) && !IsDigit(At(s, e))
  {
    DigitRunEnds(s, p);
    DigitRunEndUnique(s, p);
    var e: nat :| DigitsIn(s, p, e) && !IsDigit(At(s, e));
    e
  }

  const ULongMax: nat := 0xFFFF_FFFF_FFFF_FFFF

  /** strtoul's answer to a value too large for an unsigned long: ULONG_MAX. */
  function Saturate(v: nat): (u: nat)
    ensures u <= ULongMax
    ensures v <= ULongMax ==> u == v
    ensures v > ULongMax ==> u == ULongMax
  {
    if v <= ULongMax then v else ULongMax
  }

  /** strtoul(s + p, &end, 10) on a run of decimal digits: the value of the
      digits, ULONG_MAX when that does not fit an unsigned long, and the
      cursor after them; with no digit the value is 0 and the cursor stays. */
  function Strtoul(s: string, p: nat): (r: (nat, nat))
    requires p <= |s|
    ensures r.0 <= ULongMax && p <= r.1 <= |s|
    ensures !IsDigit(At(s, r.1))
    ensures r.1 == p ==> r.0 == 0
  {
    var e := DigitsEnd(s, p);
    (Saturate(DigitsValue(s, p, e)), e)
  }

  const Two32: int := 0x1_0000_0000
  const IntMin: int := -0x8000_0000
  const IntMax: int := 0x7FFF_FFFF

  /** static_cast<int> of an unsigned long: the low 32 bits, read as a
      two's-complement int. */
  function ToInt(u: nat): (i: int)
    ensures IntMin <= i <= IntMax
    ensures (u - i) % Two32 == 0
    ensures u <= IntMax ==> i == u
  {
    var r := u % Two32;
    assert u == (u / Two32) * Two32 + r;
    if r <= IntMax then r else r - Two32
  }

  function Pow10(n: nat): (p: nat)
    ensures p >= 1
  {
    if n == 0 then 1 else 10 * Pow10(n - 1)
  }

  /** Value of the digits s[p..e] read after a decimal point. */
  function Fraction(s: string, p: nat, e: nat): real
    requires DigitsIn(s, p, e)
  {
    DigitsValue(s, p, e) as real / Pow10(e - p) as real
  }

  /** strtod(s + p, &end) on an unsigned decimal number `d+[.d*]` or `.d+`:
      its value and the cursor after it; with no number the value is 0 and
      the cursor stays. */
  function Strtod(s: string, p: nat): (r: (real, nat))
    requires p <= |s|
    ensures p <= r.1 <= |s|
    ensures r.1 == p ==> r.0 == 0.0
  {
    var ip := DigitsEnd(s, p);
    var whole := DigitsValue(s, p, ip) as real;
    if At(s, ip) == '.' && (ip > p || IsDigit(At(s, ip + 1))) then
      var fe := DigitsEnd(s, ip + 1);
      (whole + Fraction(s, ip + 1, fe), fe)
    else (whole, ip)
  }

  /** Digits placed between pre and rest keep their value. */
  lemma {:induction false} DigitsValueInContext(pre: string, d: string, rest: string, i: nat)
    requires AllDigits(d) && i <= |d|
    ensures DigitsIn(pre + d + rest, |pre|, |pre| + i)
    ensures DigitsValue(pre + d + rest, |pre|, |pre| + i) == DigitsValue(d, 0, i)
  {
    var s := pre + d + rest;
    forall k | |pre| <= k < |pre| + i
      ensures DigitAt(s, k)
    {
      assert s[k] == d[k - |pre|] && DigitAt(d, k - |pre|);
    }
    if i > 0 {
      DigitsValueInContext(pre, d, rest, i - 1);
    }
  }

  /** The digit run starting where a run of digits d begins ends where d
      does, and has d's value. */
  lemma DigitsEndOf(pre: string, d: string, rest: string)
    requires AllDigits(d) && !IsDigit(At(rest, 0))
    ensures DigitsEnd(pre + d + rest, |pre|) == |pre| + |d|
    ensures DigitsIn(pre + d + rest, |pre|, |pre| + |d|)
    ensures DigitsValue(pre + d + rest, |pre|, |pre| + |d|) == DecimalValue(d)
  {
    var s := pre + d + rest;
    DigitsValueInContext(pre, d, rest, |d|);
    assert !IsDigit(At(s, |pre| + |d|)) by {
      assert At(s, |pre| + |d|) == At(rest, 0);
    }
    DigitRunEndUnique(s, |pre|);
  }

  /** strtoul reads a run of digits d followed by a non-digit: the value of d,
      saturated at ULONG_MAX, with the cursor right after d. */
  lemma StrtoulReadsDigits(pre: string, d: string, rest: string)
    requires AllDigits(d) && !IsDigit(At(rest, 0))
    ensures Strtoul(pre + d + rest, |pre|) == (Saturate(DecimalValue(d)), |pre| + |d|)
  {
    DigitsEndOf(pre, d, rest);
  }

  /** strtod reads a run of digits d followed by neither a digit nor a '.':
      the value of d, with the cursor right after d. */
  lemma StrtodReadsDigits(pre: string, d: string, rest: string)
    requires AllDigits(d) && !IsDigit(At(rest, 0)) && At(rest, 0) != '.'
    ensures Strtod(pre + d + rest, |pre|) == (DecimalValue(d) as real, |pre| + |d|)
  {
    var s := pre + d + rest;
    DigitsEndOf(pre, d, rest);
    assert At(s, |pre| + |d|) == At(rest, 0);
  }

  /** strtod reads digits d, a '.', and digits f followed by a non-digit as
      d.f, with the cursor after f, as long as d and f are not both empty. */
  lemma StrtodReadsFraction(pre: string, d: string, f: string, rest: string)
    requires AllDigits(d) && AllDigits(f) && |d| + |f| >= 1 && !IsDigit(At(rest, 0))
    ensures Strtod(pre + d + ("." + f + rest), |pre|)
         == (DecimalValue(d) as real + Fraction(f, 0, |f|), |pre| + |d| + 1 + |f|)
  {
    var s := pre + d + ("." + f + rest);
    DigitsEndOf(pre, d, "." + f + rest);
    assert At(s, |pre| + |d|) == '.';
    assert s == (pre + d + ".") + f + rest;
    DigitsEndOf(pre + d + ".", f, rest);
    assert |d| == 0 ==> DigitAt(f, 0) && s[|pre| + 1] == f[0];
  }
}
