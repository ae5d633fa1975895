/** Decimal digits: what a run of them is worth, and how a count is written with them. */
module Digits {

  predicate IsDigit(c: char) { '0' <= c <= '9' }

  predicate AllDigits(s: string) { forall i :: 0 <= i < |s| ==> IsDigit(s[i]) }

  function DigitValue(c: char): (d: nat)
    requires IsDigit(c)
    ensures d < 10
  {
    c as int - '0' as int
  }

  function Digit(d: nat): (c: char)
    requires d < 10
    ensures IsDigit(c) && DigitValue(c) == d
  {
    '0' + d as char
  }

  function ValueOf(s: string): nat
    requires AllDigits(s)
  {
    if s == "" then 0 else 10 * ValueOf(s[..|s| - 1]) + DigitValue(s[|s| - 1])
  }

  /** A count as decimal digits, with no leading zero. */
  function Itoa(n: nat): (s: string)
    ensures s != "" && AllDigits(s)
    ensures |s| > 1 ==> s[0] != '0'
  {
    if n < 10 then [Digit(n)] else Itoa(n / 10) + [Digit(n % 10)]
  }

  lemma {:induction false} ItoaValue(n: nat)
    ensures ValueOf(Itoa(n)) == n
  {
    if n >= 10 {
      ItoaValue(n / 10);
      var s := Itoa(n);
      assert s[..|s| - 1] == Itoa(n / 10);
    } else {
      assert Itoa(n)[..0] == "";
    }
  }

  /** Digits with no leading zero are what their value is written as. */
  lemma {:induction false} ItoaOfValue(s: string)
    requires s != "" && AllDigits(s) && (|s| > 1 ==> s[0] != '0')
    ensures Itoa(ValueOf(s)) == s
    ensures s[0] != '0' ==> ValueOf(s) > 0
  {
    var init, last := s[..|s| - 1], s[|s| - 1];
    assert s == init + [last];
    if init != "" {
      assert init[0] == s[0];
      ItoaOfValue(init);
      assert Itoa(ValueOf(s)) == Itoa(ValueOf(init)) + [Digit(DigitValue(last))];
    }
  }

  function Pow10(n: nat): (p: nat)
    ensures p >= 1
  {
    if n == 0 then 1 else 10 * Pow10(n - 1)
  }

  lemma {:induction false} Pow10Add(a: nat, b: nat)
    ensures Pow10(a + b) == Pow10(a) * Pow10(b)
  {
    if a > 0 {
      Pow10Add(a - 1, b);
      MulAssoc(10, Pow10(a - 1), Pow10(b));
    }
  }

  lemma MulAssoc(a: int, b: int, c: int)
    ensures (a * b) * c == a * (b * c)
  {}

  lemma MulAdd(a: int, b: int, c: int)
    ensures (a + b) * c == a * c + b * c
  {}

  lemma MulMonotone(a: int, b: int, c: nat)
    requires a <= b
    ensures a * c <= b * c
  {}

  lemma {:induction false} ValueConcat(a: string, b: string)
    requires AllDigits(a) && AllDigits(b)
    ensures AllDigits(a + b)
    ensures ValueOf(a + b) == ValueOf(a) * Pow10(|b|) + ValueOf(b)
  {
    if b == "" {
      assert a + b == a;
    } else {
      var init := b[..|b| - 1];
      ValueConcat(a, init);
      assert (a + b)[..|a + b| - 1] == a + init;
      MulAssoc(ValueOf(a), 10, Pow10(|init|));
      MulAssoc(10, ValueOf(a), Pow10(|init|));
    }
  }

  lemma {:induction false} ValueBound(s: string)
    requires AllDigits(s)
    ensures ValueOf(s) < Pow10(|s|)
  {
    if s != "" {
      ValueBound(s[..|s| - 1]);
    }
  }

  function Zeros(n: nat): (s: string)
    ensures |s| == n && AllDigits(s)
  {
    seq(n, _ => '0')
  }

  lemma {:induction false} ValueZeros(n: nat)
    ensures ValueOf(Zeros(n)) == 0
  {
    if n > 0 {
      ValueZeros(n - 1);
      assert Zeros(n)[..n - 1] == Zeros(n - 1);
    }
  }

  /** The first digit counts for its power of ten. */
  lemma ValueCons(s: string)
    requires s != "" && AllDigits(s)
    ensures ValueOf(s) == DigitValue(s[0]) * Pow10(|s| - 1) + ValueOf(s[1..])
  {
    ValueConcat(s[..1], s[1..]);
    assert s == s[..1] + s[1..];
    assert ValueOf(s[..1]) == DigitValue(s[0]) by { assert s[..1][..0] == ""; }
  }

  /** Trailing zeros multiply, leading zeros change nothing. */
  lemma ValuePadded(s: string, k: nat)
    requires AllDigits(s)
    ensures AllDigits(s + Zeros(k)) && ValueOf(s + Zeros(k)) == ValueOf(s) * Pow10(k)
    ensures AllDigits(Zeros(k) + s) && ValueOf(Zeros(k) + s) == ValueOf(s)
  {
    ValueConcat(s, Zeros(k));
    ValueConcat(Zeros(k), s);
    ValueZeros(k);
  }
}
