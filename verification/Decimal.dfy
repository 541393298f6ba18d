/** Decimal digit strings and the numbers they denote. */
module Decimal {

  predicate IsDigit(c: char) {
    '0' <= c <= '9'
  }

  predicate AllDigits(s: string) {
    forall i :: 0 <= i < |s| ==> IsDigit(s[i])
  }

  predicate HasDigit(s: string) {
    exists i :: 0 <= i < |s| && IsDigit(s[i])
  }

  function DigitValue(c: char): (d: nat)
    requires IsDigit(c)
    ensures d < 10
  {
    c as int - '0' as int
  }

  function DigitChar(d: nat): (c: char)
    requires d < 10
    ensures IsDigit(c) && DigitValue(c) == d
  {
    ('0' as int + d) as char
  }

  function Pow10(n: nat): (p: nat)
    ensures p >= 1
  {
    if n == 0 then 1 else 10 * Pow10(n - 1)
  }

  function Value(s: string): nat
    requires AllDigits(s)
  {
    if s == [] then 0 else Value(s[..|s| - 1]) * 10 + DigitValue(s[|s| - 1])
  }

  /** Integer formatting: the digits of `n` without leading zeros. */
  function Show(n: nat): (s: string)
    ensures AllDigits(s) && s != [] && Value(s) == n
    ensures NoLeadingZero(s)
  {
    if n < 10 then
      ValueOfDigit(DigitChar(n));
      [DigitChar(n)]
    else
      var s := Show(n / 10) + [DigitChar(n % 10)];
      assert s[..|s| - 1] == Show(n / 10);
      ValueOfDigit('0');
      s
  }

  /** Canonical integer digits: "0", or something that does not start with a zero. */
  predicate NoLeadingZero(s: string) {
    s != [] && (s[0] == '0' ==> s == "0")
  }

  function Zeros(n: nat): (z: string)
    ensures |z| == n && AllDigits(z)
  {
    seq(n, _ => '0')
  }

  lemma {:induction false} Pow10Add(a: nat, b: nat)
    ensures Pow10(a + b) == Pow10(a) * Pow10(b)
  {
    if a > 0 {
      Pow10Add(a - 1, b);
    }
  }

  lemma {:induction false} ValueOfDigit(c: char)
    requires IsDigit(c)
    ensures Value([c]) == DigitValue(c)
  {
    assert [c][..0] == [];
  }

  lemma {:induction false} ValueSnoc(s: string, c: char)
    requires AllDigits(s) && IsDigit(c)
    ensures AllDigits(s + [c]) && Value(s + [c]) == Value(s) * 10 + DigitValue(c)
  {
    assert (s + [c])[..|s|] == s;
  }

  lemma {:induction false} ValueConcat(a: string, b: string)
    requires AllDigits(a) && AllDigits(b)
    ensures AllDigits(a + b) && Value(a + b) == Value(a) * Pow10(|b|) + Value(b)
  {
    if b == [] {
      assert a + b == a;
    } else {
      hide Value;
      var b', c := b[..|b| - 1], b[|b| - 1];
      ValueConcat(a, b');
      ValueSnoc(a + b', c);
      ValueSnoc(b', c);
      assert b == b' + [c];
      assert a + b == a + b' + [c];
      ScaleByTen(Value(a), Pow10(|b'|), Value(b'), DigitValue(c));
    }
  }

  lemma {:induction false} ScaleByTen(v: nat, p: nat, w: nat, d: nat)
    ensures (v * p + w) * 10 + d == v * (10 * p) + (w * 10 + d)
  {
    assert v * (10 * p) == (v * p) * 10;
  }

  lemma {:induction false} ValueBound(s: string)
    requires AllDigits(s)
    ensures Value(s) < Pow10(|s|)
  {
    if s != [] {
      ValueBound(s[..|s| - 1]);
    }
  }

  lemma {:induction false} ValueZeros(n: nat)
    ensures Value(Zeros(n)) == 0
  {
    if n > 0 {
      assert Zeros(n)[..n - 1] == Zeros(n - 1);
      ValueZeros(n - 1);
    }
  }

  /** At a fixed length, the digits are determined by the number. */
  lemma {:induction false} ValueInjective(a: string, b: string)
    requires AllDigits(a) && AllDigits(b) && |a| == |b| && Value(a) == Value(b)
    ensures a == b
  {
    if a != [] {
      var a', b', c, d := a[..|a| - 1], b[..|b| - 1], a[|a| - 1], b[|b| - 1];
      hide Value;
      assert a == a' + [c] && b == b' + [d];
      ValueSnoc(a', c);
      ValueSnoc(b', d);
      ValueInjective(a', b');
    }
  }

  lemma {:induction false} LeadingDigitBound(s: string)
    requires AllDigits(s) && s != [] && s[0] != '0'
    ensures Pow10(|s| - 1) <= Value(s)
  {
    ValueConcat([s[0]], s[1..]);
    assert s == [s[0]] + s[1..];
    ValueOfDigit(s[0]);
    AtLeastOnce(DigitValue(s[0]), Pow10(|s| - 1));
  }

  lemma {:induction false} AtLeastOnce(d: nat, p: nat)
    requires d >= 1
    ensures d * p >= p
  {
  }

  lemma {:induction false} Pow10Monotone(a: nat, b: nat)
    requires a <= b
    ensures Pow10(a) <= Pow10(b)
  {
    Pow10Add(a, b - a);
    AtLeastOnce(Pow10(b - a), Pow10(a));
  }

  /** Without leading zeros, the digits are determined by the number. */
  lemma {:induction false} CanonicalUnique(a: string, b: string)
    requires AllDigits(a) && AllDigits(b) && NoLeadingZero(a) && NoLeadingZero(b) && Value(a) == Value(b)
    ensures a == b
  {
    if |a| == |b| {
      ValueInjective(a, b);
    } else if |a| < |b| {
      CanonicalLengths(a, b);
    } else {
      CanonicalLengths(b, a);
    }
  }

  lemma {:induction false} CanonicalLengths(a: string, b: string)
    requires AllDigits(a) && AllDigits(b) && NoLeadingZero(a) && NoLeadingZero(b) && |a| < |b|
    ensures Value(a) < Value(b)
  {
    ValueBound(a);
    LeadingDigitBound(b);
    Pow10Monotone(|a|, |b| - 1);
  }

  function TrimStartZeros(s: string): (r: string)
    requires AllDigits(s)
    ensures AllDigits(r) && Value(r) == Value(s) && (r != [] ==> r[0] != '0')
  {
    if s != [] && s[0] == '0' then
      assert s == "0" + s[1..];
      ValueConcat("0", s[1..]);
      ValueOfDigit('0');
      TrimStartZeros(s[1..])
    else s
  }

  function TrimEndZeros(s: string): (r: string)
    requires AllDigits(s)
    ensures |r| <= |s| && AllDigits(r) && s == r + Zeros(|s| - |r|) && (r != [] ==> r[|r| - 1] != '0')
  {
    if s != [] && s[|s| - 1] == '0' then
      var r := TrimEndZeros(s[..|s| - 1]);
      assert s == s[..|s| - 1] + ['0'];
      assert Zeros(|s| - |r|) == Zeros(|s| - 1 - |r|) + ['0'];
      r
    else s
  }
}
