/**
 * Epoch timestamps: numerals to nanoseconds as the Rust runtime rounds them (crates/truewire-core/src/times.rs)
 * and as the TypeScript one does (packages/core-ts/src/times.ts), and back to counts of a unit.
 */
module Times {
  import opened Digits
  import opened Wrappers

  const NANOS: nat := 1_000_000_000

  // ---- Division ----

  /** Division as both languages do it, towards zero. */
  function Quotient(n: int, d: int): int
    requires d > 0
  {
    if n >= 0 then n / d else -((-n) / d)
  }

  function Remainder(n: int, d: int): int
    requires d > 0
  {
    n - Quotient(n, d) * d
  }

  /** Floor division out of division towards zero. */
  function FloorDiv(n: int, d: int): int
    requires d > 0
  {
    if Remainder(n, d) < 0 then Quotient(n, d) - 1 else Quotient(n, d)
  }

  lemma QuotientUnique(n: int, d: int, q: int)
    requires d > 0 && q * d <= n < (q + 1) * d
    ensures n / d == q
  {
    var p := n / d;
    assert p * d <= n < (p + 1) * d by {
      assert n == p * d + n % d;
      MulAdd(p, 1, d);
    }
    if p < q {
      MulMonotone(p + 1, q, d);
    } else if q < p {
      MulMonotone(q + 1, p, d);
    }
  }

  /** It is the greatest integer that is not above the quotient, for either sign. */
  lemma FloorDivFloors(n: int, d: int)
    requires d > 0
    ensures FloorDiv(n, d) * d <= n < (FloorDiv(n, d) + 1) * d
    ensures FloorDiv(n, d) == n / d
  {
    var q := Quotient(n, d);
    assert n >= 0 ==> n == q * d + n % d;
    assert n < 0 ==> -n == (-q) * d + (-n) % d;
    MulAdd(q, 1, d);
    MulAdd(q, -1, d);
    QuotientUnique(n, d, FloorDiv(n, d));
  }

  // ---- Numerals ----

  /** A sign, the digits before the point and those after it. */
  datatype Numeral = Numeral(negative: bool, whole: string, fraction: string)

  predicate IsNumeral(n: Numeral) { n.whole != "" && AllDigits(n.whole) && AllDigits(n.fraction) }

  /** The index of the first point, the length when there is none. */
  function PointAt(s: string): (i: nat)
    ensures i <= |s| && (i < |s| ==> s[i] == '.')
    ensures '.' !in s[..i]
  {
    if s == "" || s[0] == '.' then 0
    else
      var i := 1 + PointAt(s[1..]);
      assert s[..i] == [s[0]] + s[1..][..i - 1];
      i
  }

  /** A numeral's parts, of a text already trimmed; none when it is not one. */
  function ReadNumeral(text: string): (r: Option<Numeral>)
    ensures r.Some? ==> IsNumeral(r.value)
  {
    var negative := text != "" && text[0] == '-';
    ReadUnsigned(negative, if text != "" && (text[0] == '+' || text[0] == '-') then text[1..] else text)
  }

  function ReadUnsigned(negative: bool, unsigned: string): (r: Option<Numeral>)
    ensures r.Some? ==> IsNumeral(r.value)
  {
    var i := PointAt(unsigned);
    var whole := unsigned[..i];
    var fraction := if i < |unsigned| then unsigned[i + 1..] else "";
    if whole == "" || !AllDigits(whole) || !AllDigits(fraction) || (i < |unsigned| && fraction == "") then None
    else Some(Numeral(negative, whole, fraction))
  }

  function TextOf(n: Numeral): string {
    (if n.negative then "-" else "") + (n.whole + (if n.fraction == "" then "" else "." + n.fraction))
  }

  lemma {:induction false} PointAfterDigits(whole: string, rest: string)
    requires AllDigits(whole) && (rest == "" || rest[0] == '.')
    ensures PointAt(whole + rest) == |whole|
  {
    if whole == "" {
      assert whole + rest == rest;
    } else {
      assert (whole + rest)[1..] == whole[1..] + rest;
      PointAfterDigits(whole[1..], rest);
    }
  }

  /** Every numeral reads back from its text. */
  lemma {:induction false} TextReads(n: Numeral)
    requires IsNumeral(n)
    ensures ReadNumeral(TextOf(n)) == Some(n)
  {
    var unsigned := n.whole + (if n.fraction == "" then "" else "." + n.fraction);
    UnsignedReads(n);
    SignReads(n.negative, unsigned);
  }

  lemma SignReads(negative: bool, unsigned: string)
    requires unsigned != "" && IsDigit(unsigned[0])
    ensures ReadNumeral((if negative then "-" else "") + unsigned) == ReadUnsigned(negative, unsigned)
  {
    var text := (if negative then "-" else "") + unsigned;
    assert negative ==> text[1..] == unsigned;
    assert !negative ==> text == unsigned;
  }

  lemma UnsignedReads(n: Numeral)
    requires IsNumeral(n)
    ensures ReadUnsigned(n.negative, n.whole + (if n.fraction == "" then "" else "." + n.fraction)) == Some(n)
  {
    PartsRead(n.whole, n.fraction);
  }

  lemma PartsRead(whole: string, fraction: string)
    requires AllDigits(whole)
    ensures var s := whole + (if fraction == "" then "" else "." + fraction);
            && PointAt(s) == |whole| && s[..|whole|] == whole
            && (fraction != "" ==> |whole| < |s| && s[|whole| + 1..] == fraction)
            && (fraction == "" ==> |whole| == |s|)
  {
    PointAfterDigits(whole, if fraction == "" then "" else "." + fraction);
  }

  // ---- Nanoseconds ----

  function Signed(negative: bool, n: int): int { if negative then -n else n }

  /** The nearest integer to a fraction, the greater of two equally near. */
  function Round(num: nat, den: nat): nat
    requires den > 0
  {
    (2 * num + den) / (2 * den)
  }

  /** No integer is nearer, and half a unit goes away from zero. */
  lemma RoundIs(num: nat, den: nat, r: int)
    requires den > 0
    ensures Round(num, den) == r <==> 2 * (r * den) - den <= 2 * num < 2 * (r * den) + den
  {
    var q := Round(num, den);
    var n := 2 * num + den;
    assert n == q * (2 * den) + n % (2 * den);
    Doubled(q, den);
    Doubled(r, den);
    if 2 * (r * den) - den <= 2 * num < 2 * (r * den) + den {
      MulAdd(r, 1, 2 * den);
      QuotientUnique(n, 2 * den, r);
    }
  }

  lemma Doubled(a: int, b: int)
    ensures a * (2 * b) == 2 * (a * b)
  {}

  /** How many digits of a fraction the Rust runtime keeps, for so many nanoseconds to the unit. */
  function Places(per: nat): nat { |Itoa(per)| - 1 }

  function Kept(fraction: string, places: nat): (kept: string)
    requires AllDigits(fraction)
    ensures |kept| == places && AllDigits(kept)
  {
    if |fraction| >= places then fraction[..places] else fraction + Zeros(places - |fraction|)
  }

  /** A fraction's nanoseconds, rounded by its first dropped digit. */
  function FractionNanos(fraction: string, per: nat): int
    requires AllDigits(fraction)
  {
    var places := Places(per);
    var sub := ValueOf(Kept(fraction, places));
    Spread(if |fraction| > places && fraction[places] >= '5' then sub + 1 else sub, per, places)
  }

  /** The nanoseconds of so many of a unit's last kept places. */
  function Spread(sub: int, per: nat, places: nat): int { sub * (per / Pow10(places)) }

  /** Nanoseconds in so many whole units. */
  function TickNanos(ticks: int, unit: nat): int
    requires unit > 0
  {
    FloorDiv(ticks * NANOS, unit)
  }

  /** How many nanoseconds a unit is worth, if a whole number of them. */
  function NanosPerUnit(unit: nat): (per: Option<nat>)
    requires unit > 0
  {
    if NANOS % unit == 0 then Some(NANOS / unit) else None
  }

  /** What the Rust runtime reads a numeral as. */
  function RustNanos(n: Numeral, unit: nat): Option<int>
    requires IsNumeral(n) && unit > 0
  {
    var whole := TickNanos(ValueOf(n.whole), unit);
    if n.fraction == "" then Some(if n.negative then -whole else whole)
    else if NanosPerUnit(unit).None? then None
    else
      var nanos := whole + FractionNanos(n.fraction, NanosPerUnit(unit).value);
      Some(if n.negative then -nanos else nanos)
  }

  lemma OneMoreZero(s: string, k: nat)
    ensures s + Zeros(k) + "0" == s + Zeros(k + 1)
  {}

  /** The first digits of a fraction, filled up with zeros. */
  method KeepDigits(fraction: string, places: nat) returns (kept: string)
    requires AllDigits(fraction)
    ensures kept == Kept(fraction, places)
  {
    kept := if |fraction| < places then fraction else fraction[..places];
    ghost var filled := 0;
    assert fraction + Zeros(0) == fraction;
    while |kept| < places
      invariant |fraction| >= places ==> kept == fraction[..places]
      invariant |fraction| < places ==> kept == fraction + Zeros(filled) && |fraction| + filled <= places
    {
      OneMoreZero(fraction, filled);
      kept := kept + "0";
      filled := filled + 1;
    }
  }

  /** A fraction's nanoseconds, from the digits kept and the first one dropped. */
  method RoundFraction(fraction: string, per: nat) returns (nanos: int)
    requires AllDigits(fraction)
    ensures nanos == FractionNanos(fraction, per)
  {
    var places := |Itoa(per)| - 1;
    var kept := KeepDigits(fraction, places);
    var sub := ValueOf(kept);
    if |fraction| > places && fraction[places] >= '5' {
      sub := sub + 1;
    }
    nanos := Spread(sub, per, places);
  }

  /** The Rust runtime's reading of a numeral, digit by digit; none when it is refused. */
  method NanosOfNumeral(text: string, unit: nat) returns (r: Option<int>)
    requires unit > 0
    ensures r == if ReadNumeral(text).Some? then RustNanos(ReadNumeral(text).value, unit) else None
  {
    var read := ReadNumeral(text);
    if read.None? {
      return None;
    }
    var n := read.value;
    var nanos := TickNanos(ValueOf(n.whole), unit);
    if n.fraction != "" {
      if NanosPerUnit(unit).None? {
        return None;
      }
      var per := NanosPerUnit(unit).value;
      var sub := RoundFraction(n.fraction, per);
      nanos := nanos + sub;
    }
    r := Some(if n.negative then -nanos else nanos);
  }

  /** The exact nanoseconds of a decimal, as a fraction, rounded half away from zero. */
  function ExactNanos(n: Numeral, exponent: int, unit: nat): int
    requires IsNumeral(n) && unit > 0
  {
    var count := ValueOf(n.whole + n.fraction) * NANOS;
    var shift := exponent - |n.fraction|;
    Signed(n.negative, if shift >= 0 then Round(Scaled(count, shift), unit) else Round(count, Scaled(unit, -shift)))
  }

  function Scaled(n: nat, k: nat): (s: nat)
    ensures n > 0 ==> s > 0
  {
    MulMonotone(1, Pow10(k), n);
    n * Pow10(k)
  }

  // ---- Exponents ----

  /** Ten to a power of either sign. */
  function TenTo(k: int): (r: real)
    ensures r > 0.0
  {
    if k >= 0 then Pow10(k) as real else 1.0 / (Pow10(-k) as real)
  }

  /** The nanoseconds a decimal with an exponent spells in a unit, exactly, without its sign. */
  function SpelledNanos(n: Numeral, exponent: int, unit: nat): real
    requires IsNumeral(n) && unit > 0
  {
    Spelled(ValueOf(n.whole + n.fraction), exponent - |n.fraction|, unit)
  }

  function Spelled(digits: nat, shift: int, unit: nat): real
    requires unit > 0
  {
    digits as real * TenTo(shift) * (NANOS as real) / (unit as real)
  }

  /** The numerator and denominator of those nanoseconds, as the arithmetic forms them. */
  function Numerator(value: nat, shift: int): nat {
    if shift >= 0 then Scaled(value * NANOS, shift) else value * NANOS
  }

  function Denominator(unit: nat, shift: int): (den: nat)
    ensures unit > 0 ==> den > 0
  {
    if shift >= 0 then unit else Scaled(unit, -shift)
  }

  lemma {:induction false} SpelledFraction(value: nat, shift: int, unit: nat)
    requires unit > 0
    ensures Spelled(value, shift, unit) == Numerator(value, shift) as real / Denominator(unit, shift) as real
  {
    if shift >= 0 { SpelledUp(value, Pow10(shift), unit); } else { SpelledDown(value, Pow10(-shift), unit); }
  }

  /**
   * For every exponent the rational arithmetic gives the integer nearest to the nanoseconds spelled, half
   * a nanosecond away from zero, and no other integer is that.
   */
  lemma {:induction false} ExactIsNearest(n: Numeral, exponent: int, unit: nat, r: nat)
    requires IsNumeral(n) && unit > 0
    ensures ExactNanos(n, exponent, unit) == Signed(n.negative, r) <==>
            r as real - 0.5 <= SpelledNanos(n, exponent, unit) < r as real + 0.5
  {
    var value, shift := ValueOf(n.whole + n.fraction), exponent - |n.fraction|;
    var num, den := Numerator(value, shift), Denominator(unit, shift);
    AsFraction(n, exponent, unit);
    RoundIs(num, den, r);
    NearestAsReals(num, den, r);
  }

  lemma {:induction false} AsFraction(n: Numeral, exponent: int, unit: nat)
    requires IsNumeral(n) && unit > 0
    ensures var value, shift := ValueOf(n.whole + n.fraction), exponent - |n.fraction|;
            && ExactNanos(n, exponent, unit) == Signed(n.negative, Round(Numerator(value, shift), Denominator(unit, shift)))
            && SpelledNanos(n, exponent, unit) == Numerator(value, shift) as real / Denominator(unit, shift) as real
  {
    SpelledFraction(ValueOf(n.whole + n.fraction), exponent - |n.fraction|, unit);
  }

  lemma ProductAsReal(a: nat, b: nat)
    ensures (a * b) as real == a as real * b as real
  {}

  lemma SpelledUp(value: nat, p: nat, unit: nat)
    requires unit > 0
    ensures value as real * (p as real) * (NANOS as real) / (unit as real) == (value * NANOS * p) as real / unit as real
  {
    ProductAsReal(value * NANOS, p);
    ProductAsReal(value, NANOS);
    var a, b, c := value as real, NANOS as real, p as real;
    assert a * c * b == a * b * c;
  }

  lemma SpelledDown(value: nat, p: nat, unit: nat)
    requires unit > 0 && p > 0 && unit * p > 0
    ensures value as real * (1.0 / (p as real)) * (NANOS as real) / (unit as real) == (value * NANOS) as real / (unit * p) as real
  {
    ProductAsReal(value, NANOS);
    ProductAsReal(unit, p);
    OverAndOver(value as real, p as real, NANOS as real, unit as real);
  }

  lemma OverAndOver(a: real, p: real, b: real, u: real)
    requires p > 0.0 && u > 0.0
    ensures u * p > 0.0 && a * (1.0 / p) * b / u == a * b / (u * p)
  {
    var q := a * (1.0 / p);
    assert q * p == a;
    var x := q * b / u;
    assert x * u == q * b;
    assert x * (u * p) == q * b * p == a * b;
  }

  lemma SignScales(a: real, c: real)
    requires c > 0.0
    ensures a >= 0.0 <==> a * c >= 0.0
    ensures a > 0.0 <==> a * c > 0.0
  {}

  /** Comparing a quotient with the half steps about `r` is comparing its numerator with them, scaled. */
  lemma HalfSteps(r: real, q: real, d: real, x: real, n: real)
    requires d > 0.0 && q * d == n && x == r * d
    ensures r - 0.5 <= q <==> x - 0.5 * d <= n
    ensures q < r + 0.5 <==> n < x + 0.5 * d
  {
    var low, high := q - r + 0.5, r + 0.5 - q;
    assert low * d == n - x + 0.5 * d;
    assert high * d == x + 0.5 * d - n;
    SignScales(low, d);
    SignScales(high, d);
  }

  lemma HalvesAsReals(x: int, den: int, num: int)
    ensures 2 * x - den <= 2 * num <==> x as real - 0.5 * (den as real) <= num as real
    ensures 2 * num < 2 * x + den <==> num as real < x as real + 0.5 * (den as real)
  {
    assert (2 * x - den) as real == 2.0 * (x as real) - den as real;
    assert (2 * x + den) as real == 2.0 * (x as real) + den as real;
    assert (2 * num) as real == 2.0 * (num as real);
  }

  lemma NearestAsReals(num: nat, den: nat, r: nat)
    requires den > 0
    ensures (2 * (r * den) - den <= 2 * num < 2 * (r * den) + den) <==>
            r as real - 0.5 <= num as real / den as real < r as real + 0.5
  {
    var q, d, x := num as real / den as real, den as real, r * den;
    ProductAsReal(r, den);
    assert q * d == num as real;
    HalfSteps(r as real, q, d, x as real, num as real);
    HalvesAsReals(x, den, num);
  }

  /** The TypeScript runtime's reading of a decimal with an exponent, by rational arithmetic. */
  method FractionalNanos(n: Numeral, exponent: int, unit: nat) returns (nanos: int)
    requires IsNumeral(n) && unit > 0
    ensures nanos == ExactNanos(n, exponent, unit)
    ensures forall r: nat :: nanos == Signed(n.negative, r) <==>
              r as real - 0.5 <= SpelledNanos(n, exponent, unit) < r as real + 0.5
  {
    var shift := exponent - |n.fraction|;
    assert AllDigits(n.whole + n.fraction);
    var num := ValueOf(n.whole + n.fraction) * NANOS;
    var den := unit;
    if shift >= 0 {
      num := Scaled(num, shift);
    } else {
      den := Scaled(den, -shift);
    }
    nanos := Signed(n.negative, Round(num, den));
    forall r: nat
      ensures nanos == Signed(n.negative, r) <==> r as real - 0.5 <= SpelledNanos(n, exponent, unit) < r as real + 0.5
    {
      ExactIsNearest(n, exponent, unit, r);
    }
  }
}
