/**
 * Python's `uuid.UUID(text)` (parsing, `ValueError` as `None`) and
 * `str(uuid)` (the canonical 8-4-4-4-12 lower-case form).  A UUID is its
 * 128-bit integer value, which is what two UUIDs are compared by.
 */
module Uuids {
  import opened Wrappers
  import opened Numerals
  import opened Text

  /** 2^128, the number of UUIDs. */
  const Bound: nat := 0x1_0000_0000_0000_0000_0000_0000_0000_0000

  lemma MulAssoc(a: nat, b: nat, c: nat)
    ensures a * (b * c) == (a * b) * c
  {
  }

  lemma {:induction false} PowAdd(b: nat, m: nat, n: nat)
    ensures Pow(b, m + n) == Pow(b, m) * Pow(b, n)
  {
    if m > 0 {
      PowAdd(b, m - 1, n);
      assert Pow(b, m + n) == b * Pow(b, m - 1 + n);
      MulAssoc(b, Pow(b, m - 1), Pow(b, n));
    }
  }

  lemma BoundIsPow()
    ensures Pow(16, 32) == Bound
  {
    assert Pow(16, 4) == 0x1_0000;
    PowAdd(16, 4, 4);
    PowAdd(16, 8, 8);
    PowAdd(16, 16, 16);
  }

  predicate IsUuid(n: nat) {
    n < Bound
  }

  /** The 32 hex digits of a UUID. */
  function Hex(n: nat): (h: string)
    requires IsUuid(n)
    ensures |h| == 32 && AllDigits(h, 16)
  {
    BoundIsPow();
    Fixed(n, 32, 16)
  }

  lemma HexRoundTrip(n: nat)
    requires IsUuid(n)
    ensures Value(Hex(n), 16) == n
  {
    BoundIsPow();
    FixedRoundTrip(n, 32, 16);
  }

  predicate IsBrace(c: char) {
    c == '{' || c == '}'
  }

  /** `str(UUID(int=n))`. */
  function Format(n: nat): (s: string)
    requires IsUuid(n)
    ensures |s| == 36
  {
    var h := Hex(n);
    h[..8] + "-" + h[8..12] + "-" + h[12..16] + "-" + h[16..20] + "-" + h[20..]
  }

  /**
   * `UUID(text)`: drop every "urn:" then every "uuid:", strip braces from
   * both ends, drop every hyphen; what is left must be 32 hex digits.
   */
  function Parse(text: string): (r: Option<nat>)
    ensures r.Some? ==> IsUuid(r.value)
  {
    var a := RemoveAll(RemoveAll(text, "urn:"), "uuid:");
    var hex := RemoveAll(StripWhere(a, IsBrace), "-");
    BoundIsPow();
    if |hex| == 32 && AllDigits(hex, 16) then Some(Value(hex, 16)) else None
  }

  /** Removing a one-character pattern distributes over concatenation. */
  lemma {:induction false} RemoveCharAppend(a: string, b: string, c: char)
    ensures RemoveAll(a + b, [c]) == RemoveAll(a, [c]) + RemoveAll(b, [c])
    decreases |a|
  {
    if |a| > 0 {
      assert (a + b)[1..] == a[1..] + b;
      RemoveCharAppend(a[1..], b, c);
    } else {
      assert a + b == b;
    }
  }

  lemma HexHasNo(s: string, c: char)
    requires AllDigits(s, 16) && DigitValue(c).None?
    ensures c !in s
  {
  }

  /** Dropping hyphens from `a + "-" + p`, where `p` is hex, drops them from `a` only. */
  lemma RemoveHyphenStep(a: string, p: string)
    requires AllDigits(p, 16)
    ensures RemoveAll(a + "-" + p, "-") == RemoveAll(a, "-") + p
  {
    HexHasNo(p, '-');
    RemoveAbsent(p, "-");
    assert RemoveAll("-", "-") == "";
    RemoveCharAppend(a, "-", '-');
    RemoveCharAppend(a + "-", p, '-');
  }

  /** The five groups of the 8-4-4-4-12 layout put back together, each still hex. */
  lemma HexGroups(h: string)
    requires |h| == 32 && AllDigits(h, 16)
    ensures h == h[..8] + h[8..12] + h[12..16] + h[16..20] + h[20..]
    ensures AllDigits(h[..8], 16) && AllDigits(h[8..12], 16) && AllDigits(h[12..16], 16)
    ensures AllDigits(h[16..20], 16) && AllDigits(h[20..], 16)
  {
    assert h[..12] == h[..8] + h[8..12];
    assert h[..16] == h[..12] + h[12..16];
    assert h[..20] == h[..16] + h[16..20];
    assert h == h[..20] + h[20..];
  }

  lemma FormatDropsToHex(n: nat)
    requires IsUuid(n)
    ensures RemoveAll(Format(n), "-") == Hex(n)
  {
    var h := Hex(n);
    HexGroups(h);
    var p1, p2, p3, p4, p5 := h[..8], h[8..12], h[12..16], h[16..20], h[20..];
    HexHasNo(p1, '-');
    RemoveAbsent(p1, "-");
    RemoveHyphenStep(p1, p2);
    RemoveHyphenStep(p1 + "-" + p2, p3);
    RemoveHyphenStep(p1 + "-" + p2 + "-" + p3, p4);
    RemoveHyphenStep(p1 + "-" + p2 + "-" + p3 + "-" + p4, p5);
  }

  /** A character that is neither a hex digit nor a hyphen never occurs in the canonical text. */
  lemma FormatHasNo(n: nat, c: char)
    requires IsUuid(n)
    requires DigitValue(c).None? && c != '-'
    ensures c !in Format(n)
  {
    var h := Hex(n);
    HexGroups(h);
    HexHasNo(h[..8], c);
    HexHasNo(h[8..12], c);
    HexHasNo(h[12..16], c);
    HexHasNo(h[16..20], c);
    HexHasNo(h[20..], c);
  }

  lemma FormatPrefixesAbsent(n: nat)
    requires IsUuid(n)
    ensures RemoveAll(RemoveAll(Format(n), "urn:"), "uuid:") == Format(n)
    ensures StripWhere(Format(n), IsBrace) == Format(n)
  {
    var s := Format(n);
    FormatHasNo(n, 'u');
    FormatHasNo(n, '{');
    FormatHasNo(n, '}');
    RemoveAbsent(s, "urn:");
    RemoveAbsent(s, "uuid:");
    assert s[0] in s && s[|s| - 1] in s;
    assert !IsBrace(s[0]) && !IsBrace(s[|s| - 1]);
  }

  /** The canonical text of a UUID parses back to it. */
  lemma ParseFormat(n: nat)
    requires IsUuid(n)
    ensures Parse(Format(n)) == Some(n)
  {
    FormatPrefixesAbsent(n);
    FormatDropsToHex(n);
    HexRoundTrip(n);
  }

  /** Distinct UUIDs have distinct canonical texts. */
  lemma FormatInjective(m: nat, n: nat)
    requires IsUuid(m) && IsUuid(n) && Format(m) == Format(n)
    ensures m == n
  {
    ParseFormat(m);
    ParseFormat(n);
  }
}
