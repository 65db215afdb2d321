/**
 * Decimal digit strings: strconv.Itoa for the transaction id, and the
 * fixed-width digit fields of the date layout.
 */
module Decimal {

  predicate IsDigit(c: char) {
    '0' <= c <= '9'
  }

  predicate AllDigits(s: string) {
    forall i | 0 <= i < |s| :: IsDigit(s[i])
  }

  function Digit(d: nat): (c: char)
    requires d < 10
    ensures IsDigit(c)
    ensures c as int - '0' as int == d
  {
    ('0' as int + d) as char
  }

  lemma AllDigitsPrefix(s: string, k: nat)
    requires AllDigits(s) && k <= |s|
    ensures AllDigits(s[..k])
  {
    var p := s[..k];
    forall i | 0 <= i < |p| ensures IsDigit(p[i]) {
      assert p[i] == s[i];
    }
  }

  /** The number a digit string denotes (most significant digit first). */
  function Value(s: string): nat
    requires AllDigits(s)
    decreases |s|
  {
    if |s| == 0 then 0
    else
      AllDigitsPrefix(s, |s| - 1);
      Value(s[..|s| - 1]) * 10 + (s[|s| - 1] as int - '0' as int)
  }

  function Pow10(n: nat): (p: nat)
    ensures p >= 1
  {
    if n == 0 then 1 else 10 * Pow10(n - 1)
  }

  /** strconv.Itoa on a non-negative int: shortest decimal form. */
  function Itoa(n: nat): (s: string)
    ensures 1 <= |s|
    ensures AllDigits(s)
    ensures |s| > 1 ==> s[0] != '0'
    decreases n
  {
    if n < 10 then [Digit(n)] else Itoa(n / 10) + [Digit(n % 10)]
  }

  lemma {:induction false} ItoaValue(n: nat)
    ensures Value(Itoa(n)) == n
    decreases n
  {
    var s := Itoa(n);
    if n >= 10 {
      ItoaValue(n / 10);
      assert s[..|s| - 1] == Itoa(n / 10);
    }
  }

  /** Itoa is injective: distinct numbers have distinct decimal forms. */
  lemma ItoaInjective(m: nat, n: nat)
    ensures Itoa(m) == Itoa(n) ==> m == n
  {
    ItoaValue(m);
    ItoaValue(n);
  }

  /** `n` written with exactly `width` digits, zero-padded on the left. */
  function Pad(n: nat, width: nat): (s: string)
    ensures |s| == width
    ensures AllDigits(s)
    decreases width
  {
    if width == 0 then [] else Pad(n / 10, width - 1) + [Digit(n % 10)]
  }

  lemma {:induction false} PadValue(n: nat, width: nat)
    requires n < Pow10(width)
    ensures Value(Pad(n, width)) == n
    decreases width
  {
    if width > 0 {
      var s := Pad(n, width);
      assert s[..|s| - 1] == Pad(n / 10, width - 1);
      PadValue(n / 10, width - 1);
    }
  }

  lemma {:induction false} PadOfValue(s: string)
    requires AllDigits(s)
    ensures Pad(Value(s), |s|) == s
    decreases |s|
  {
    if |s| > 0 {
      var init := s[..|s| - 1];
      AllDigitsPrefix(s, |s| - 1);
      PadOfValue(init);
      var v := Value(s);
      var last := s[|s| - 1] as int - '0' as int;
      assert v == Value(init) * 10 + last;
      assert v / 10 == Value(init) && v % 10 == last;
      assert s == init + [s[|s| - 1]];
    }
  }
}
