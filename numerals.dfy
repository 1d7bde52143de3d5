/**
 * Python's `int(s)` and `int(s, 16)` on strings of ASCII digits, and the
 * zero-padded rendering they invert.
 */
module Numerals {
  import opened Wrappers

  predicate IsDigit(c: char) { '0' <= c <= '9' }

  predicate IsHexDigit(c: char) { IsDigit(c) || 'a' <= c <= 'f' || 'A' <= c <= 'F' }

  /** The value of a hexadecimal digit (decimal digits are hexadecimal digits). */
  function DigitValue(c: char): (v: nat)
    requires IsHexDigit(c)
    ensures v < 16
    ensures IsDigit(c) <==> v < 10
  {
    if IsDigit(c) then c as int - '0' as int
    else if 'a' <= c <= 'f' then c as int - 'a' as int + 10
    else c as int - 'A' as int + 10
  }

  predicate AllDigitsIn(s: string, base: nat) {
    forall k :: 0 <= k < |s| ==> IsHexDigit(s[k]) && DigitValue(s[k]) < base
  }

  /** The value of a digit string, most significant digit first. */
  function Value(s: string, base: nat): nat
    requires AllDigitsIn(s, base)
  {
    if s == [] then 0 else Value(s[..|s| - 1], base) * base + DigitValue(s[|s| - 1])
  }

  /**
   * `int(s, base)` for base 10 or 16: the value of a non-empty string of
   * digits of that base; any other string is rejected.
   */
  function ParseInt(s: string, base: nat): Option<nat> {
    if |s| > 0 && AllDigitsIn(s, base) then Some(Value(s, base)) else None
  }

  function Pow(b: nat, e: nat): nat {
    if e == 0 then 1 else b * Pow(b, e - 1)
  }

  /** The lower-case digit for a value below 16. */
  function Digit(v: nat): (c: char)
    requires v < 16
    ensures IsHexDigit(c) && DigitValue(c) == v
  {
    if v < 10 then ('0' as int + v) as char else ('a' as int + v - 10) as char
  }

  /** `n` written with exactly `width` digits of `base`, zero-padded on the left. */
  function Render(n: nat, width: nat, base: nat): (s: string)
    requires 2 <= base <= 16
    ensures |s| == width && AllDigitsIn(s, base)
  {
    if width == 0 then "" else Render(n / base, width - 1, base) + [Digit(n % base)]
  }

  lemma MulLe(x: nat, y: nat, b: nat)
    requires x <= y
    ensures x * b <= y * b
  {
  }

  lemma DivBelow(n: nat, b: nat, p: nat)
    requires 0 < b && n < b * p
    ensures n / b < p
  {
    var q := n / b;
    assert q * b <= n;
    if p <= q {
      MulLe(p, q, b);
    }
  }

  lemma {:induction false} ValueOfRender(n: nat, width: nat, base: nat)
    requires base == 10 || base == 16
    requires n < Pow(base, width)
    ensures Value(Render(n, width, base), base) == n
  {
    if width > 0 {
      var s := Render(n, width, base);
      var init := Render(n / base, width - 1, base);
      var last := Digit(n % base);
      assert s == init + [last];
      assert s[..|s| - 1] == init;
      DivBelow(n, base, Pow(base, width - 1));
      ValueOfRender(n / base, width - 1, base);
      assert Value(s, base) == Value(init, base) * base + DigitValue(last);
      assert n == (n / base) * base + n % base;
    }
  }

  /** Parsing inverts rendering: every value that fits the width comes back. */
  lemma ParseRender(n: nat, width: nat, base: nat)
    requires (base == 10 || base == 16) && width > 0
    requires n < Pow(base, width)
    ensures ParseInt(Render(n, width, base), base) == Some(n)
  {
    ValueOfRender(n, width, base);
  }

  /** A digit string never denotes more than its width allows. */
  lemma {:induction false} ValueBelowPow(s: string, base: nat)
    requires (base == 10 || base == 16) && AllDigitsIn(s, base)
    ensures Value(s, base) < Pow(base, |s|)
  {
    if s != [] {
      var init := s[..|s| - 1];
      ValueBelowPow(init, base);
      var v := Value(init, base);
      var d := DigitValue(s[|s| - 1]);
      assert v <= Pow(base, |s| - 1) - 1;
      assert v * base <= Pow(base, |s| - 1) * base - base;
      assert Value(s, base) == v * base + d;
    }
  }

  /** Rendering inverts parsing: a digit string is its value, re-padded, up to case. */
  lemma {:induction false} RenderValue(s: string)
    requires AllDigitsIn(s, 10)
    ensures Render(Value(s, 10), |s|, 10) == s
  {
    if s != [] {
      var init := s[..|s| - 1];
      var n := Value(s, 10);
      RenderValue(init);
      assert n / 10 == Value(init, 10) && n % 10 == DigitValue(s[|s| - 1]);
      assert Digit(DigitValue(s[|s| - 1])) == s[|s| - 1];
      assert s == init + [s[|s| - 1]];
    }
  }
}
