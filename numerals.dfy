/**
 * Digits: fixed-width and shortest decimal or hexadecimal renderings of
 * natural numbers, and reading them back.  Used for ISO dates, the
 * textual form of UUIDs and the decimal form of History ids.
 */
module Numerals {
  import opened Wrappers

  function Pow(base: nat, n: nat): (r: nat)
    ensures base >= 2 ==> r >= 1
  {
    if n == 0 then 1 else base * Pow(base, n - 1)
  }

  lemma MulMono(a: nat, b: nat, c: nat)
    requires a <= b
    ensures a * c <= b * c
  {
  }

  /** Quotient and remainder, named so that callers reason about them linearly. */
  function DivMod(n: nat, base: nat): (qr: (nat, nat))
    requires base >= 2
    ensures qr.1 < base && n == qr.0 * base + qr.1
  {
    (n / base, n % base)
  }

  /** Dropping the last digit of a `width`-digit number leaves a `width - 1`-digit one. */
  lemma DivBound(n: nat, q: nat, r: nat, base: nat, width: nat)
    requires 2 <= base && width >= 1
    requires n == q * base + r
    requires n < Pow(base, width)
    ensures q < Pow(base, width - 1)
  {
    var p := Pow(base, width - 1);
    if q >= p {
      MulMono(p, q, base);
      assert false;
    }
  }

  /** Appending a digit to a `k`-digit number gives a `k + 1`-digit one. */
  lemma AppendBound(init: nat, d: nat, base: nat, k: nat)
    requires 2 <= base && d < base
    requires init < Pow(base, k)
    ensures init * base + d < Pow(base, k + 1)
  {
    MulMono(init + 1, Pow(base, k), base);
    assert (init + 1) * base == init * base + base;
    assert Pow(base, k + 1) == base * Pow(base, k);
  }

  /** The character of digit `d` (lower-case letters above nine). */
  function DigitChar(d: nat): (c: char)
    requires d < 16
  {
    if d < 10 then '0' + d as char else 'a' + (d - 10) as char
  }

  /** The value of a hexadecimal digit of either case, if `c` is one. */
  function DigitValue(c: char): (r: Option<nat>)
    ensures r.Some? ==> r.value < 16
  {
    if '0' <= c <= '9' then Some((c - '0') as nat)
    else if 'a' <= c <= 'f' then Some((c - 'a') as nat + 10)
    else if 'A' <= c <= 'F' then Some((c - 'A') as nat + 10)
    else None
  }

  lemma DigitRoundTrip(d: nat)
    requires d < 16
    ensures DigitValue(DigitChar(d)) == Some(d)
  {
  }

  predicate IsDigitIn(c: char, base: nat) {
    DigitValue(c).Some? && DigitValue(c).value < base
  }

  predicate AllDigits(s: string, base: nat) {
    forall i :: 0 <= i < |s| ==> IsDigitIn(s[i], base)
  }

  /** `n` written with exactly `width` digits of `base`, zero-padded on the left. */
  function Fixed(n: nat, width: nat, base: nat): (s: string)
    requires 2 <= base <= 16
    requires n < Pow(base, width)
    ensures |s| == width
    ensures AllDigits(s, base)
    decreases width
  {
    if width == 0 then ""
    else
      var qr := DivMod(n, base);
      DigitRoundTrip(qr.1);
      DivBound(n, qr.0, qr.1, base, width);
      Fixed(qr.0, width - 1, base) + [DigitChar(qr.1)]
  }

  /** The value of a string of digits of `base`, most significant first. */
  function Value(s: string, base: nat): (n: nat)
    requires 2 <= base <= 16
    requires AllDigits(s, base)
    ensures n < Pow(base, |s|)
  {
    if |s| == 0 then 0
    else
      var init := Value(s[..|s| - 1], base);
      var d := DigitValue(s[|s| - 1]).value;
      AppendBound(init, d, base, |s| - 1);
      MulMono(0, init, base);
      init * base + d
  }

  lemma {:induction false} FixedRoundTrip(n: nat, width: nat, base: nat)
    requires 2 <= base <= 16
    requires n < Pow(base, width)
    ensures Value(Fixed(n, width, base), base) == n
    decreases width
  {
    if width > 0 {
      var (q, d) := DivMod(n, base);
      var s := Fixed(n, width, base);
      DivBound(n, q, d, base, width);
      assert s[..|s| - 1] == Fixed(q, width - 1, base);
      DigitRoundTrip(d);
      FixedRoundTrip(q, width - 1, base);
    }
  }

  /** Fixed-width renderings of two numbers agree only when the numbers do. */
  lemma FixedInjective(m: nat, n: nat, width: nat, base: nat)
    requires 2 <= base <= 16
    requires m < Pow(base, width) && n < Pow(base, width)
    requires Fixed(m, width, base) == Fixed(n, width, base)
    ensures m == n
  {
    FixedRoundTrip(m, width, base);
    FixedRoundTrip(n, width, base);
  }

  /** Python's `str(n)` for a natural number: shortest decimal form. */
  function Decimal(n: nat): (s: string)
    ensures |s| >= 1 && AllDigits(s, 10)
    ensures |s| > 1 ==> s[0] != '0'
  {
    if n < 10 then [DigitChar(n)]
    else
      DigitRoundTrip(n % 10);
      Decimal(n / 10) + [DigitChar(n % 10)]
  }

  lemma {:induction false} DecimalRoundTrip(n: nat)
    ensures Value(Decimal(n), 10) == n
  {
    DigitRoundTrip(n % 10);
    if n >= 10 {
      var s := Decimal(n);
      assert s[..|s| - 1] == Decimal(n / 10);
      DecimalRoundTrip(n / 10);
    }
  }
}
