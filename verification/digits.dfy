/** Integers written as digit strings: JavaScript's `String(n)` /
    template-literal conversion for integers, `Number.prototype.toString(16)`,
    and readers that take such strings apart again. */
module Digits {
  import opened Wrappers

  const DigitChars: string := "0123456789abcdef"

  function DigitChar(d: int): char
    requires 0 <= d < 16
  {
    DigitChars[d]
  }

  /** Value of a lowercase digit character, or -1 for any other character. */
  function DigitValue(ch: char): int {
    if '0' <= ch <= '9' then ch as int - '0' as int
    else if 'a' <= ch <= 'f' then ch as int - 'a' as int + 10
    else -1
  }

  predicate IsDigit(ch: char, base: nat) {
    0 <= DigitValue(ch) < base
  }

  lemma DigitCharValue(d: int)
    requires 0 <= d < 16
    ensures DigitValue(DigitChar(d)) == d
  {
  }

  /** The digits of `n` in `base`, most significant first, no leading zeros. */
  function ToRadix(n: nat, base: nat): (s: string)
    requires 2 <= base <= 16
    ensures |s| >= 1
    ensures forall i :: 0 <= i < |s| ==> IsDigit(s[i], base)
    ensures n < base <==> |s| == 1
    ensures |s| > 1 ==> s[0] != '0'
    decreases n
  {
    DigitCharValue(n % base);
    if n < base then [DigitChar(n)]
    else ToRadix(n / base, base) + [DigitChar(n % base)]
  }

  /** The number a digit string denotes. */
  function ValueOf(s: string, base: nat): nat
    requires 2 <= base <= 16
    requires forall i :: 0 <= i < |s| ==> IsDigit(s[i], base)
  {
    if |s| == 0 then 0
    else
      assert IsDigit(s[|s| - 1], base);
      var high: nat := ValueOf(s[..|s| - 1], base);
      var low: nat := DigitValue(s[|s| - 1]);
      high * base + low
  }

  lemma DivModParts(n: nat, base: nat)
    requires base > 0
    ensures (n / base) * base + n % base == n
  {
  }

  lemma ValueOfSnoc(s: string, c: char, base: nat)
    requires 2 <= base <= 16 && IsDigit(c, base)
    requires forall i :: 0 <= i < |s| ==> IsDigit(s[i], base)
    ensures forall i :: 0 <= i < |s + [c]| ==> IsDigit((s + [c])[i], base)
    ensures ValueOf(s + [c], base) == ValueOf(s, base) * base + DigitValue(c)
  {
    assert (s + [c])[..|s|] == s;
  }

  lemma ValueOfStep(hs: string, c: char, base: nat, n: nat)
    requires 2 <= base <= 16 && IsDigit(c, base)
    requires forall i :: 0 <= i < |hs| ==> IsDigit(hs[i], base)
    requires ValueOf(hs, base) == n / base && DigitValue(c) == n % base
    ensures forall i :: 0 <= i < |hs + [c]| ==> IsDigit((hs + [c])[i], base)
    ensures ValueOf(hs + [c], base) == n
  {
    ValueOfSnoc(hs, c, base);
    DivModParts(n, base);
  }

  lemma ToRadixStep(n: nat, base: nat)
    requires 2 <= base <= 16 && n >= base
    ensures 0 <= n % base < base && n / base < n
    ensures ToRadix(n, base) == ToRadix(n / base, base) + [DigitChar(n % base)]
  {
  }

  /** Reading the digits back gives the number. */
  lemma {:induction false} ValueOfToRadix(n: nat, base: nat)
    requires 2 <= base <= 16
    ensures ValueOf(ToRadix(n, base), base) == n
    decreases n
  {
    if n >= base {
      DigitCharValue(n % base);
      ToRadixStep(n, base);
      ValueOfToRadix(n / base, base);
      ValueOfStep(ToRadix(n / base, base), DigitChar(n % base), base, n);
    } else {
      ValueOfOneDigit(n, base);
    }
  }

  lemma ValueOfOneDigit(n: nat, base: nat)
    requires 2 <= base <= 16 && n < base
    ensures ValueOf(ToRadix(n, base), base) == n
  {
    DigitCharValue(n);
    assert ToRadix(n, base) == [] + [DigitChar(n)];
    ValueOfSnoc([], DigitChar(n), base);
  }

  /** Decimal text of an integer, as `${n}` produces it. */
  function IntToString(i: int): (s: string)
    ensures |s| >= 1
    ensures forall k :: 0 <= k < |s| ==> s[k] == '-' || IsDigit(s[k], 10)
  {
    if i < 0 then "-" + ToRadix(-i, 10) else ToRadix(i, 10)
  }

  /** Length of the run of decimal digits at the front of `s`. */
  function DigitRun(s: string): (k: nat)
    ensures k <= |s|
    ensures forall i :: 0 <= i < k ==> IsDigit(s[i], 10)
    ensures k < |s| ==> !IsDigit(s[k], 10)
  {
    if |s| == 0 || !IsDigit(s[0], 10) then 0 else 1 + DigitRun(s[1..])
  }

  /** Reads a non-empty run of decimal digits; the rest of the string follows. */
  function ParseNat(s: string): (r: Option<(nat, string)>)
    ensures r.Some? ==> |r.value.1| < |s|
  {
    var k := DigitRun(s);
    if k == 0 then None else Some((ValueOf(s[..k], 10), s[k..]))
  }

  /** Reads an optionally negative decimal integer at the front of `s`. */
  function ParseInt(s: string): (r: Option<(int, string)>)
    ensures r.Some? ==> |r.value.1| < |s|
  {
    if |s| > 0 && s[0] == '-' then
      match ParseNat(s[1..])
      case None => None
      case Some(r) =>
        var v: int := r.0;
        Some((-v, r.1))
    else
      match ParseNat(s)
      case None => None
      case Some(r) => Some((r.0, r.1))
  }

  /** A string that cannot continue a number just read. */
  predicate Delimits(rest: string) {
    |rest| == 0 || !IsDigit(rest[0], 10)
  }

  lemma {:induction false} DigitRunPrefix(ds: string, rest: string)
    requires forall i :: 0 <= i < |ds| ==> IsDigit(ds[i], 10)
    requires Delimits(rest)
    ensures DigitRun(ds + rest) == |ds|
  {
    if |ds| > 0 {
      assert (ds + rest)[1..] == ds[1..] + rest;
      DigitRunPrefix(ds[1..], rest);
    }
  }

  /** Writing a natural number and reading it back recovers it. */
  lemma NatRoundTrip(n: nat, rest: string)
    requires Delimits(rest)
    ensures ParseNat(ToRadix(n, 10) + rest) == Some((n, rest))
  {
    var ds := ToRadix(n, 10);
    DigitRunPrefix(ds, rest);
    ValueOfToRadix(n, 10);
    assert (ds + rest)[..|ds|] == ds;
    assert (ds + rest)[|ds|..] == rest;
  }

  /** Writing an integer and reading it back recovers it and leaves the text
      that followed untouched. */
  lemma IntToStringRoundTrip(i: int, rest: string)
    requires Delimits(rest)
    ensures ParseInt(IntToString(i) + rest) == Some((i, rest))
  {
    var n: nat := if i < 0 then -i else i;
    var ds := ToRadix(n, 10);
    NatRoundTrip(n, rest);
    if i < 0 {
      assert IntToString(i) + rest == "-" + (ds + rest);
      assert ("-" + (ds + rest))[1..] == ds + rest;
    } else {
      assert IntToString(i) + rest == ds + rest;
      assert IsDigit(ds[0], 10);
    }
  }
}
