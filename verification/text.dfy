/** String primitives the core borrows from the JavaScript runtime:
    ASCII lower-casing, substring search, `Array.prototype.join`, a
    character-code `localeCompare`, and the `parseFloat` / `parseInt`
    number parsers restricted to plain decimal notation. */
module Text {
  import opened Options

  predicate IsDigit(c: char) {
    '0' <= c <= '9'
  }

  /** The ASCII white-space characters both parsers skip before a number. */
  predicate IsSpace(c: char) {
    c == ' ' || c == '\t' || c == '\n' || c == '\r' || c == '\U{B}' || c == '\U{C}'
  }

  predicate AllDigits(s: string) {
    forall i :: 0 <= i < |s| ==> IsDigit(s[i])
  }

  // ---------------------------------------------------------------------
  // Lower-casing and substring search

  function LowerChar(c: char): char {
    if 'A' <= c <= 'Z' then (c as int + 32) as char else c
  }

  /** ASCII `toLowerCase`. */
  function Lower(s: string): (r: string)
    ensures |r| == |s|
    ensures forall i :: 0 <= i < |s| ==> r[i] == LowerChar(s[i])
    ensures forall i :: 0 <= i < |r| ==> !('A' <= r[i] <= 'Z')
  {
    seq(|s|, i requires 0 <= i < |s| => LowerChar(s[i]))
  }

  /** Lower-casing twice changes nothing more than lower-casing once. */
  lemma LowerIdempotent(s: string)
    ensures Lower(Lower(s)) == Lower(s)
  {
  }

  /** `n` occurs in `h` starting at position `i`. */
  ghost predicate OccursAt(h: string, n: string, i: nat) {
    i + |n| <= |h| && h[i..i + |n|] == n
  }

  /** `String.prototype.includes`: `n` is a contiguous piece of `h`. */
  function Contains(h: string, n: string): bool
    decreases |h|
  {
    n <= h || (|h| > 0 && Contains(h[1..], n))
  }

  /** `Contains` finds exactly the positions where `n` occurs. */
  lemma ContainsIffOccurs(h: string, n: string)
    ensures Contains(h, n) <==> exists i: nat :: OccursAt(h, n, i)
  {
    if Contains(h, n) {
      var i := ContainsWitness(h, n);
    }
    if exists i: nat :: OccursAt(h, n, i) {
      var i: nat :| OccursAt(h, n, i);
      OccursContains(h, n, i);
    }
  }

  lemma {:induction false} ContainsWitness(h: string, n: string) returns (i: nat)
    requires Contains(h, n)
    ensures OccursAt(h, n, i)
    decreases |h|
  {
    if n <= h {
      i := 0;
      assert h[0..0 + |n|] == n;
    } else {
      var j := ContainsWitness(h[1..], n);
      i := j + 1;
      assert h[i..i + |n|] == h[1..][j..j + |n|];
    }
  }

  lemma {:induction false} OccursContains(h: string, n: string, i: nat)
    requires OccursAt(h, n, i)
    ensures Contains(h, n)
    decreases i
  {
    if i == 0 {
      assert h[..|n|] == n;
    } else {
      assert h[1..][i - 1..i - 1 + |n|] == h[i..i + |n|];
      OccursContains(h[1..], n, i - 1);
    }
  }

  // ---------------------------------------------------------------------
  // Array.prototype.join

  function Join(xs: seq<string>, sep: string): (r: string)
    ensures |xs| == 1 ==> r == xs[0]
  {
    if |xs| == 0 then ""
    else if |xs| == 1 then xs[0]
    else xs[0] + sep + Join(xs[1..], sep)
  }

  /** With a non-empty separator the join is empty exactly for the empty
      list and for a list holding one empty string. */
  lemma {:induction false} JoinEmptyIff(xs: seq<string>, sep: string)
    requires sep != ""
    ensures Join(xs, sep) == "" <==> |xs| == 0 || (|xs| == 1 && xs[0] == "")
  {
    if |xs| > 1 {
      assert |Join(xs, sep)| >= |sep|;
    }
  }

  // ---------------------------------------------------------------------
  // String ordering

  /** `localeCompare`, read as plain character-code order: negative, zero
      or positive as `a` sorts before, with or after `b`. */
  function LocaleCompare(a: string, b: string): (r: int)
    ensures -1 <= r <= 1
  {
    if |a| == 0 && |b| == 0 then 0
    else if |a| == 0 then -1
    else if |b| == 0 then 1
    else if a[0] < b[0] then -1
    else if b[0] < a[0] then 1
    else LocaleCompare(a[1..], b[1..])
  }

  /** Swapping the arguments flips the sign, and only equal strings compare
      equal. */
  lemma {:induction false} LocaleCompareAntisymmetric(a: string, b: string)
    ensures LocaleCompare(b, a) == -LocaleCompare(a, b)
    ensures LocaleCompare(a, b) == 0 <==> a == b
  {
    if |a| > 0 && |b| > 0 && a[0] == b[0] {
      LocaleCompareAntisymmetric(a[1..], b[1..]);
      if a[1..] == b[1..] {
        assert a == [a[0]] + a[1..] && b == [b[0]] + b[1..];
      }
    }
  }

  /** "Sorts before" is transitive. */
  lemma {:induction false} LocaleCompareTransitive(a: string, b: string, c: string)
    requires LocaleCompare(a, b) < 0 && LocaleCompare(b, c) < 0
    ensures LocaleCompare(a, c) < 0
  {
    if |a| > 0 && |b| > 0 && |c| > 0 && a[0] == b[0] && b[0] == c[0] {
      LocaleCompareTransitive(a[1..], b[1..], c[1..]);
    }
  }

  // ---------------------------------------------------------------------
  // Number parsing

  function SkipSpace(s: string): (r: string)
    ensures |r| > 0 ==> !IsSpace(r[0])
  {
    if |s| > 0 && IsSpace(s[0]) then SkipSpace(s[1..]) else s
  }

  /** Length of the run of decimal digits at the front of `s`. */
  function DigitRun(s: string): (n: nat)
    ensures n <= |s| && AllDigits(s[..n])
    ensures n < |s| ==> !IsDigit(s[n])
  {
    if |s| > 0 && IsDigit(s[0]) then 1 + DigitRun(s[1..]) else 0
  }

  function Pow10(k: nat): (r: nat)
    ensures r >= 1
  {
    if k == 0 then 1 else 10 * Pow10(k - 1)
  }

  /** The value of a string of decimal digits, most significant first. */
  function DigitsValue(d: string): (v: nat)
    requires AllDigits(d)
    ensures v < Pow10(|d|)
  {
    if |d| == 0 then 0
    else DigitsValue(d[..|d| - 1]) * 10 + (d[|d| - 1] as int - '0' as int)
  }

  /** The value of the digits after a decimal point: `0.d1d2...`. */
  function FractionValue(d: string): (v: real)
    requires AllDigits(d)
    ensures 0.0 <= v < 1.0
  {
    if |d| == 0 then 0.0
    else ((d[0] as int - '0' as int) as real + FractionValue(d[1..])) / 10.0
  }

  /** The value of the numeral `whole.frac`. */
  function FixedPoint(whole: string, frac: string): real
    requires AllDigits(whole) && AllDigits(frac)
  {
    DigitsValue(whole) as real + FractionValue(frac)
  }

  /** `digits [ '.' digits ]` or `'.' digits` at the front of `s`, with at
      least one digit; `None` when no digit is found. */
  function UnsignedDecimal(s: string): (r: Option<real>)
    ensures r.Some? ==> r.value >= 0.0 && |s| > 0 && (IsDigit(s[0]) || s[0] == '.')
  {
    var i := DigitRun(s);
    var rest := s[i..];
    if |rest| > 0 && rest[0] == '.' then
      var f := DigitRun(rest[1..]);
      if i == 0 && f == 0 then None
      else Some(FixedPoint(s[..i], rest[1..][..f]))
    else if i == 0 then None
    else Some(DigitsValue(s[..i]) as real)
  }

  /** `parseFloat` on the longest decimal prefix after leading white space;
      `None` is NaN. A number is found only when the first non-space
      character is a digit, a sign or a decimal point, and its sign is the
      written one. */
  function ParseFloat(s: string): (r: Option<real>)
    ensures r.Some? ==> var t := SkipSpace(s);
              |t| > 0 && (IsDigit(t[0]) || t[0] == '+' || t[0] == '-' || t[0] == '.')
    ensures r.Some? && SkipSpace(s)[0] == '-' ==> r.value <= 0.0
    ensures r.Some? && SkipSpace(s)[0] != '-' ==> r.value >= 0.0
  {
    var t := SkipSpace(s);
    if |t| > 0 && t[0] == '-' then
      match UnsignedDecimal(t[1..])
      case Some(v) => Some(-v)
      case None => None
    else if |t| > 0 && t[0] == '+' then UnsignedDecimal(t[1..])
    else UnsignedDecimal(t)
  }

  /** The run of digits at the front of `u`; `None` when there is none. */
  function UnsignedInt(u: string): (r: Option<nat>)
    ensures r.Some? ==> |u| > 0 && IsDigit(u[0])
  {
    var i := DigitRun(u);
    if i == 0 then None else Some(DigitsValue(u[..i]))
  }

  /** `parseInt` with no radix on decimal input: the longest run of digits
      after white space and an optional sign; `None` is NaN. A number is
      found only when the first non-space character is a digit or a sign,
      and its sign is the written one. */
  function ParseInt(s: string): (r: Option<int>)
    ensures r.Some? ==> var t := SkipSpace(s);
              |t| > 0 && (IsDigit(t[0]) || t[0] == '+' || t[0] == '-')
    ensures r.Some? && SkipSpace(s)[0] == '-' ==> r.value <= 0
    ensures r.Some? && SkipSpace(s)[0] != '-' ==> r.value >= 0
  {
    var t := SkipSpace(s);
    if |t| > 0 && t[0] == '-' then
      match UnsignedInt(t[1..])
      case Some(v) => Some(0 - v)
      case None => None
    else if |t| > 0 && t[0] == '+' then
      match UnsignedInt(t[1..])
      case Some(v) => Some(v)
      case None => None
    else
      match UnsignedInt(t)
      case Some(v) => Some(v)
      case None => None
  }

  // ---------------------------------------------------------------------
  // Decimal rendering, the inverse used by the round-trip lemmas below

  function DigitChar(d: nat): (c: char)
    requires d < 10
    ensures IsDigit(c) && c as int - '0' as int == d
  {
    ('0' as int + d) as char
  }

  /** `n` written in decimal, without leading zeros. */
  function ShowNat(n: nat): (s: string)
    ensures |s| >= 1 && AllDigits(s)
    ensures |s| > 1 ==> s[0] != '0'
  {
    if n < 10 then [DigitChar(n)] else ShowNat(n / 10) + [DigitChar(n % 10)]
  }

  lemma {:induction false} DigitsValueShowNat(n: nat)
    ensures DigitsValue(ShowNat(n)) == n
  {
    if n >= 10 {
      DigitsValueShowNat(n / 10);
      var s := ShowNat(n);
      assert s[..|s| - 1] == ShowNat(n / 10);
    }
  }

  /** `parseInt` reads back every decimal numeral and ignores anything after
      the last digit. */
  lemma ParseIntShowNat(n: nat, tail: string)
    requires |tail| == 0 || !IsDigit(tail[0])
    ensures ParseInt(ShowNat(n) + tail) == Some(n)
  {
    DigitsValueShowNat(n);
    ParseIntDigits(ShowNat(n), tail);
  }

  lemma ParseIntDigits(s: string, tail: string)
    requires |s| > 0 && AllDigits(s)
    requires |tail| == 0 || !IsDigit(tail[0])
    ensures ParseInt(s + tail) == Some(DigitsValue(s))
  {
    var t := s + tail;
    UnsignedIntDigits(s, tail);
    assert t[0] == s[0];
    NoLeadingSpace(t);
  }

  /** A minus sign in front of a numeral gives its negation: `parseInt`
      does not clamp negative input. */
  lemma ParseIntNegative(n: nat, tail: string)
    requires |tail| == 0 || !IsDigit(tail[0])
    ensures ParseInt("-" + (ShowNat(n) + tail)) == Some(0 - n)
  {
    DigitsValueShowNat(n);
    UnsignedIntDigits(ShowNat(n), tail);
    ParseIntMinus(ShowNat(n) + tail);
  }

  lemma ParseIntMinus(u: string)
    ensures ParseInt("-" + u) == match UnsignedInt(u) case Some(v) => Some(0 - v) case None => None
  {
    var m := "-" + u;
    assert m[0] == '-';
    assert m[1..] == u;
    NoLeadingSpace(m);
  }

  lemma NoLeadingSpace(t: string)
    requires |t| > 0 && !IsSpace(t[0])
    ensures SkipSpace(t) == t
  {
  }

  lemma UnsignedIntDigits(s: string, tail: string)
    requires |s| > 0 && AllDigits(s)
    requires |tail| == 0 || !IsDigit(tail[0])
    ensures UnsignedInt(s + tail) == Some(DigitsValue(s))
  {
    DigitRunAll(s, tail);
    assert (s + tail)[..|s|] == s;
  }

  /** `parseFloat` reads back every decimal numeral as the same number. */
  lemma ParseFloatShowNat(n: nat)
    ensures ParseFloat(ShowNat(n)) == Some(n as real)
  {
    var s := ShowNat(n);
    DigitsValueShowNat(n);
    DigitRunAll(s, "");
    assert s + "" == s;
    assert !IsSpace(s[0]);
    assert SkipSpace(s) == s;
    assert s[..|s|] == s;
    assert UnsignedDecimal(s) == Some(n as real);
  }

  /** `parseFloat` reads a fixed-point numeral `i.f` as `i + f / 10^|f|`. */
  lemma ParseFloatFixedPoint(whole: string, frac: string)
    requires |whole| > 0 && AllDigits(whole) && AllDigits(frac)
    ensures ParseFloat(whole + "." + frac) == Some(FixedPoint(whole, frac))
  {
    var s := whole + "." + frac;
    UnsignedFixedPoint(whole, frac);
    assert s[0] == whole[0];
    assert SkipSpace(s) == s;
  }

  lemma UnsignedFixedPoint(whole: string, frac: string)
    requires AllDigits(whole) && AllDigits(frac)
    requires |whole| > 0
    ensures UnsignedDecimal(whole + "." + frac) == Some(FixedPoint(whole, frac))
  {
    var s := whole + "." + frac;
    var rest := "." + frac;
    assert s == whole + rest;
    DigitRunAll(whole, rest);
    DigitRunAll(frac, "");
    assert frac + "" == frac;
    assert s[..|whole|] == whole;
    assert s[|whole|..] == rest;
    assert rest[1..] == frac;
    assert frac[..|frac|] == frac;
  }

  /** The default the price cells substitute for a missing field. */
  lemma ParseFloatZero()
    ensures ParseFloat("0") == Some(0.0)
  {
    ParseFloatShowNat(0);
    assert ShowNat(0) == "0";
  }

  lemma {:induction false} DigitRunAll(s: string, tail: string)
    requires AllDigits(s)
    requires |tail| == 0 || !IsDigit(tail[0])
    ensures DigitRun(s + tail) == |s|
  {
    if |s| > 0 {
      assert (s + tail)[1..] == s[1..] + tail;
      DigitRunAll(s[1..], tail);
    }
  }

  /** Inputs the parsers read differently from the JavaScript runtime:
      exponent notation stops at the `e`, `Infinity` is not a number, and
      `parseInt` reads only the `0` of a hexadecimal prefix. */
  lemma ParseOutsideDecimal()
    ensures ParseFloat("1e-7") == Some(1.0)
    ensures ParseFloat("Infinity") == None
    ensures ParseInt("0x1A") == Some(0)
  {
    assert DigitRun("e-7") == 0;
    assert DigitRun("1e-7") == 1;
    assert "1e-7"[..1] == "1";
    assert DigitRun("x1A") == 0;
    assert DigitRun("0x1A") == 1;
    assert "0x1A"[..1] == "0";
  }
}
