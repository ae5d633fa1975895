/** When the two runtimes read the same nanoseconds, and when a count comes back from them. */
module TimesLaws {
  import opened Digits
  import opened Times
  import opened Wrappers

  // ---- The first dropped digit ----

  /** `sub` nanoseconds are the nearest to a fraction of a unit worth `per`, greater of two equally near. */
  ghost predicate Nearest(fraction: string, per: nat, sub: int)
    requires AllDigits(fraction)
  {
    2 * (sub * Pow10(|fraction|)) - Pow10(|fraction|) <= 2 * (ValueOf(fraction) * per) < 2 * (sub * Pow10(|fraction|)) + Pow10(|fraction|)
  }

  /** Half of the dropped digits' range is reached exactly when the first of them is 5 or more. */
  lemma FirstDigitDecides(dropped: string)
    requires dropped != "" && AllDigits(dropped)
    ensures dropped[0] >= '5' <==> 2 * ValueOf(dropped) >= Pow10(|dropped|)
  {
    var rest := Pow10(|dropped| - 1);
    ValueCons(dropped);
    ValueBound(dropped[1..]);
    var d := DigitValue(dropped[0]);
    if dropped[0] >= '5' {
      MulMonotone(5, d, rest);
    } else {
      MulMonotone(d, 4, rest);
    }
  }

  /** Digits within the places kept are exact. */
  lemma ShortIsNearest(fraction: string, places: nat)
    requires AllDigits(fraction) && |fraction| <= places
    ensures Nearest(fraction, Pow10(places), ValueOf(Kept(fraction, places)))
  {
    var k := places - |fraction|;
    ValuePadded(fraction, k);
    assert Kept(fraction, places) == fraction + Zeros(k);
    Pow10Add(k, |fraction|);
    MulAssoc(ValueOf(fraction), Pow10(k), Pow10(|fraction|));
  }

  /** Longer ones are rounded by the first digit dropped. */
  lemma {:induction false} LongIsNearest(fraction: string, places: nat)
    requires AllDigits(fraction) && |fraction| > places
    ensures Nearest(fraction, Pow10(places), ValueOf(fraction[..places]) + if fraction[places] >= '5' then 1 else 0)
  {
    var dropped := fraction[places..];
    SplitValue(fraction, places);
    ValueBound(dropped);
    FirstDigitDecides(dropped);
    assert fraction[places] == dropped[0];
    Scale(ValueOf(fraction[..places]), ValueOf(dropped), Pow10(|dropped|), Pow10(places), if dropped[0] >= '5' then 1 else 0);
  }

  lemma SplitValue(fraction: string, places: nat)
    requires AllDigits(fraction) && |fraction| > places
    ensures AllDigits(fraction[..places]) && AllDigits(fraction[places..])
    ensures ValueOf(fraction) == ValueOf(fraction[..places]) * Pow10(|fraction[places..]|) + ValueOf(fraction[places..])
    ensures Pow10(|fraction|) == Pow10(|fraction[places..]|) * Pow10(places)
  {
    PartsAreDigits(fraction, fraction[..places], fraction[places..]);
    ConcatIs(fraction, fraction[..places], fraction[places..]);
  }

  lemma PartsAreDigits(s: string, a: string, b: string)
    requires AllDigits(s) && s == a + b
    ensures AllDigits(a) && AllDigits(b)
  {
    assert forall i :: 0 <= i < |a| ==> a[i] == s[i];
    assert forall i :: 0 <= i < |b| ==> b[i] == s[|a| + i];
  }

  lemma {:induction false} ConcatIs(s: string, a: string, b: string)
    requires AllDigits(s) && AllDigits(a) && AllDigits(b) && s == a + b
    ensures ValueOf(s) == ValueOf(a) * Pow10(|b|) + ValueOf(b)
    ensures Pow10(|s|) == Pow10(|b|) * Pow10(|a|)
  {
    ValueConcat(a, b);
    Pow10Add(|b|, |a|);
  }

  lemma Scale(a: nat, d: nat, m: nat, p: nat, bump: nat)
    requires p > 0 && bump <= 1 && (bump == 1 ==> m <= 2 * d < 3 * m) && (bump == 0 ==> 2 * d < m)
    ensures var q, f := m * p, (a * m + d) * p;
            2 * ((a + bump) * q) - q <= 2 * f < 2 * ((a + bump) * q) + q
  {
    MulAdd(a * m, d, p);
    MulAssoc(a, m, p);
    MulAdd(a, bump, m * p);
    if bump == 0 {
      assert (2 * d) * p < m * p by { MulMonotone(2 * d + 1, m, p); MulAdd(2 * d, 1, p); }
    } else {
      MulMonotone(m, 2 * d, p);
      assert (2 * d) * p < (3 * m) * p by { MulMonotone(2 * d + 1, 3 * m, p); MulAdd(2 * d, 1, p); }
      MulAssoc(3, m, p);
    }
    MulAssoc(2, d, p);
  }

  /** The unit's nanoseconds are a power of ten. */
  predicate Decimal(per: nat) { per == Pow10(Places(per)) }

  lemma FractionIsNearest(fraction: string, per: nat)
    requires AllDigits(fraction) && Decimal(per)
    ensures Nearest(fraction, per, FractionNanos(fraction, per))
  {
    var places := Places(per);
    if |fraction| <= places {
      ShortIsNearest(fraction, places);
    } else {
      LongIsNearest(fraction, places);
    }
    assert per / Pow10(places) == 1;
  }

  // ---- The two runtimes ----

  /** What the TypeScript runtime reads a numeral with no exponent as: a whole count floored, a fraction rounded. */
  function ScriptNanos(n: Numeral, unit: nat): int
    requires IsNumeral(n) && unit > 0
  {
    if n.fraction == "" then FloorDiv(Signed(n.negative, ValueOf(n.whole)) * NANOS, unit) else ExactNanos(n, 0, unit)
  }

  lemma WholeNanos(ticks: int, unit: nat, per: nat)
    requires unit > 0 && per * unit == NANOS
    ensures TickNanos(ticks, unit) == ticks * per
  {
    MulAssoc(ticks, per, unit);
    MulAdd(ticks * per, 1, unit);
    FloorDivFloors(ticks * NANOS, unit);
    QuotientUnique(ticks * NANOS, unit, ticks * per);
  }

  /** A fraction of a unit rounds alike alone and with its whole units. */
  lemma RoundsTogether(n: Numeral, unit: nat, per: nat, sub: int)
    requires IsNumeral(n) && unit > 0 && per * unit == NANOS
    ensures Nearest(n.fraction, per, sub) <==>
            Round(ValueOf(n.whole + n.fraction) * NANOS, Scaled(unit, |n.fraction|)) == ValueOf(n.whole) * per + sub
  {
    var w, f, q := ValueOf(n.whole), ValueOf(n.fraction), Pow10(|n.fraction|);
    ValueConcat(n.whole, n.fraction);
    var num, den, r := (w * q + f) * NANOS, unit * q, w * per + sub;
    RoundIs(num, den, r);
    TogetherScaled(w, f, q, unit, per, sub);
  }

  lemma TogetherScaled(w: nat, f: nat, q: nat, unit: nat, per: nat, sub: int)
    requires unit > 0 && q > 0 && per * unit == NANOS
    ensures var num, den, r := (w * q + f) * NANOS, unit * q, w * per + sub;
            (2 * (r * den) - den <= 2 * num < 2 * (r * den) + den) <==>
            (2 * (sub * q) - q <= 2 * (f * per) < 2 * (sub * q) + q)
  {
    var x, y := sub * q, f * per;
    // num == (w * q * per + y) * unit and r * den == (w * per * q + x) * unit
    var wqp := w * q * per;
    assert (w * q + f) * NANOS == (wqp + y) * unit by {
      MulAssoc(w * q + f, per, unit);
      MulAdd(w * q, f, per);
    }
    assert (w * per + sub) * (unit * q) == (wqp + x) * unit by {
      assert unit * q == q * unit;
      MulAssoc(w * per + sub, q, unit);
      MulAdd(w * per, sub, q);
      MulAssoc(w, per, q);
      MulAssoc(w, q, per);
      assert per * q == q * per;
    }
    Cancel(wqp + x, wqp + y, q, unit);
  }

  lemma Cancel(a: int, b: int, q: int, unit: nat)
    requires unit > 0
    ensures (2 * (a * unit) - unit * q <= 2 * (b * unit) < 2 * (a * unit) + unit * q) <==> (2 * a - q <= 2 * b < 2 * a + q)
  {
    var low, high := 2 * b - (2 * a - q), 2 * a + q - 2 * b;
    assert low * unit == 2 * (b * unit) - (2 * (a * unit) - unit * q) by { Distribute(2 * b, 2 * a - q, unit); Distribute(2 * a, q, unit); }
    assert high * unit == 2 * (a * unit) + unit * q - 2 * (b * unit) by { Distribute(2 * a + q, 2 * b, unit); MulAdd(2 * a, q, unit); }
    SignKept(low, unit);
    SignKept(high, unit);
  }

  lemma Distribute(a: int, b: int, c: int)
    ensures (a - b) * c == a * c - b * c
  {}

  lemma SignKept(a: int, c: nat)
    requires c > 0
    ensures a * c >= 0 <==> a >= 0
    ensures a * c > 0 <==> a > 0
  {
    if a > 0 { MulMonotone(1, a, c); } else { MulMonotone(a, 0, c); }
    if a < 0 { MulMonotone(a, -1, c); }
  }

  /** For a unit whose nanoseconds are a power of ten, both runtimes read every numeral alike. */
  lemma {:induction false} RuntimesAgree(n: Numeral, unit: nat, per: nat)
    requires IsNumeral(n) && unit > 0 && per * unit == NANOS && Decimal(per)
    ensures RustNanos(n, unit) == Some(ScriptNanos(n, unit))
  {
    RustReads(n, unit, per);
    if n.fraction == "" {
      WholeNanos(Signed(n.negative, ValueOf(n.whole)), unit, per);
      SignOut(n.negative, ValueOf(n.whole), per);
    } else {
      FractionAgrees(n, unit, per);
      ScriptRounds(n, unit);
    }
  }

  lemma SignOut(negative: bool, a: int, b: int)
    ensures Signed(negative, a) * b == Signed(negative, a * b)
  {}

  lemma RustReads(n: Numeral, unit: nat, per: nat)
    requires IsNumeral(n) && unit > 0 && per * unit == NANOS
    ensures RustNanos(n, unit) ==
            Some(Signed(n.negative, ValueOf(n.whole) * per + if n.fraction == "" then 0 else FractionNanos(n.fraction, per)))
  {
    PerUnit(unit, per);
    WholeNanos(ValueOf(n.whole), unit, per);
  }

  lemma ScriptRounds(n: Numeral, unit: nat)
    requires IsNumeral(n) && unit > 0 && n.fraction != ""
    ensures ScriptNanos(n, unit) == Signed(n.negative, Round(ValueOf(n.whole + n.fraction) * NANOS, Scaled(unit, |n.fraction|)))
  {
    assert 0 - |n.fraction| < 0;
  }

  lemma FractionAgrees(n: Numeral, unit: nat, per: nat)
    requires IsNumeral(n) && unit > 0 && per * unit == NANOS && Decimal(per)
    ensures Round(ValueOf(n.whole + n.fraction) * NANOS, Scaled(unit, |n.fraction|)) ==
            ValueOf(n.whole) * per + FractionNanos(n.fraction, per)
  {
    FractionIsNearest(n.fraction, per);
    RoundsTogether(n, unit, per, FractionNanos(n.fraction, per));
  }

  lemma PerUnit(unit: nat, per: nat)
    requires unit > 0 && per * unit == NANOS
    ensures NanosPerUnit(unit) == Some(per)
  {
    MulAdd(per, 1, unit);
    QuotientUnique(NANOS, unit, per);
    assert NANOS == NANOS / unit * unit + NANOS % unit;
  }

  /** The units the formats declare: seconds, milliseconds, microseconds and nanoseconds among them. */
  lemma TenthsAgree(n: Numeral, k: nat)
    requires IsNumeral(n) && k <= 9
    ensures RustNanos(n, Pow10(k)) == Some(ScriptNanos(n, Pow10(k)))
  {
    Pow10Add(9 - k, k);
    assert NANOS == Pow10(9) by { NineZeros(); }
    ItoaOfPow10(9 - k);
    RuntimesAgree(n, Pow10(k), Pow10(9 - k));
  }

  lemma NineZeros()
    ensures Pow10(9) == NANOS
  {
    assert Pow10(3) == 1000;
    Pow10Add(3, 3);
    Pow10Add(3, 6);
  }

  lemma {:induction false} ItoaOfPow10(k: nat)
    ensures |Itoa(Pow10(k))| == k + 1
  {
    if k > 0 { ItoaOfPow10(k - 1); }
  }

  lemma {:induction false} PlacesBound(n: nat)
    requires n > 0
    ensures Pow10(Places(n)) <= n < 10 * Pow10(Places(n))
  {
    if n >= 10 {
      PlacesBound(n / 10);
      assert Places(n) == Places(n / 10) + 1;
    }
  }

  lemma {:induction false} ValueNines(k: nat)
    ensures AllDigits(seq(k, _ => '9')) && ValueOf(seq(k, _ => '9')) == Pow10(k) - 1
  {
    if k > 0 {
      ValueNines(k - 1);
      assert seq(k, _ => '9')[..k - 1] == seq(k - 1, _ => '9');
    }
  }

  /** A fraction just short of half the last place kept. */
  function JustUnderHalf(places: nat): (s: string)
    ensures AllDigits(s) && |s| == 2 * places + 2
  {
    Zeros(places) + "4" + seq(places + 1, _ => '9')
  }

  lemma {:induction false} JustUnderHalfValue(places: nat)
    ensures ValueOf(JustUnderHalf(places)) == 50 * Pow10(places) - 1
    ensures Pow10(|JustUnderHalf(places)|) == 100 * (Pow10(places) * Pow10(places))
  {
    var tail := "4" + seq(places + 1, _ => '9');
    FourNines(places + 1);
    ValuePadded(tail, places);
    assert JustUnderHalf(places) == Zeros(places) + tail;
    Pow10Add(places, places + 2);
    MulAssoc(Pow10(places), 100, Pow10(places));
  }

  lemma FourNines(k: nat)
    ensures var s := "4" + seq(k, _ => '9'); AllDigits(s) && ValueOf(s) == 5 * Pow10(k) - 1
  {
    var s := "4" + seq(k, _ => '9');
    ValueNines(k);
    ValueCons(s);
    assert s[1..] == seq(k, _ => '9');
  }

  /** For any other unit that divides a second the digits dropped mislead: just under half a place is over half a nanosecond. */
  lemma JustUnderHalfDiffers(unit: nat, per: nat)
    requires unit > 0 && per * unit == NANOS && !Decimal(per)
    ensures var n := Numeral(false, "0", JustUnderHalf(Places(per)));
            RustNanos(n, unit) == Some(0) && ScriptNanos(n, unit) != 0
  {
    var places := Places(per);
    var fraction, p := JustUnderHalf(places), Pow10(places);
    var n := Numeral(false, "0", fraction);
    PerUnit(unit, per);
    assert per != 0;
    PlacesBound(per);
    JustUnderHalfValue(places);
    assert ValueOf("0") == 0 by { assert "0"[..0] == ""; }
    WholeNanos(0, unit, per);
    assert fraction[..places] == Zeros(places) && fraction[places] == '4';
    ValueZeros(places);
    assert FractionNanos(fraction, per) == 0;
    assert per >= p + 1;
    OverHalf(p, per);
    assert !Nearest(fraction, per, 0);
    RoundsTogether(n, unit, per, 0);
  }

  lemma OverHalf(p: nat, per: nat)
    requires p > 0 && per >= p + 1
    ensures 2 * ((50 * p - 1) * per) >= 100 * (p * p)
  {
    var c := 50 * p - 1;
    MulMonotone(p + 1, per, c);
    Distribute(50 * p, 1, p + 1);
    MulAssoc(50, p, p + 1);
    MulAdd(p, 1, p);
    assert (p + 1) * c == 50 * (p * p) + 49 * p - 1;
  }

  /** A unit that does not divide a second: the Rust runtime refuses every fraction of it. */
  lemma FractionRefused(n: Numeral, unit: nat)
    requires IsNumeral(n) && unit > 0 && NANOS % unit != 0 && n.fraction != ""
    ensures RustNanos(n, unit) == None
  {}

  /** A unit of a whole number of nanoseconds, and that a power of ten. */
  predicate TenthOfSecond(unit: nat)
    requires unit > 0
  {
    NANOS % unit == 0 && Decimal(NANOS / unit)
  }

  /** Any other unit has a numeral the runtimes read differently, or the Rust one not at all. */
  lemma {:induction false} OtherUnitsDiffer(unit: nat) returns (n: Numeral)
    requires unit > 0 && !TenthOfSecond(unit)
    ensures IsNumeral(n) && RustNanos(n, unit) != Some(ScriptNanos(n, unit))
  {
    if NANOS % unit != 0 {
      n := Numeral(false, "0", "5");
      FractionRefused(n, unit);
    } else {
      var per := NANOS / unit;
      WhatIsLost(NANOS, unit);
      JustUnderHalfDiffers(unit, per);
      n := Numeral(false, "0", JustUnderHalf(Places(per)));
    }
  }

  /** Exactly which units both runtimes read alike on every numeral: those whose nanoseconds are a power of ten. */
  lemma {:induction false} UnitsThatAgree(unit: nat)
    requires unit > 0
    ensures (forall n: Numeral :: IsNumeral(n) ==> RustNanos(n, unit) == Some(ScriptNanos(n, unit))) <==> TenthOfSecond(unit)
  {
    if TenthOfSecond(unit) {
      WhatIsLost(NANOS, unit);
      forall n: Numeral | IsNumeral(n) ensures RustNanos(n, unit) == Some(ScriptNanos(n, unit)) {
        RuntimesAgree(n, unit, NANOS / unit);
      }
    } else {
      var n := OtherUnitsDiffer(unit);
    }
  }

  /** A whole count is read alike, whatever the unit, exactly when it is not negative or a whole number of nanoseconds. */
  lemma {:induction false} WholesThatAgree(n: Numeral, unit: nat)
    requires IsNumeral(n) && unit > 0 && n.fraction == ""
    ensures RustNanos(n, unit) == Some(ScriptNanos(n, unit)) <==> !n.negative || (ValueOf(n.whole) * NANOS) % unit == 0
  {
    var a := ValueOf(n.whole) * NANOS;
    SignOut(n.negative, ValueOf(n.whole), NANOS);
    FloorDivFloors(a, unit);
    FloorDivFloors(-a, unit);
    WhatIsLost(a, unit);
    var q := a / unit;
    if n.negative {
      NegMul(q, unit);
      if a == q * unit {
        MulAdd(-q, 1, unit);
        QuotientUnique(-a, unit, -q);
      }
    }
  }

  lemma NegMul(a: int, b: int)
    ensures (-a) * b == -(a * b)
  {}

  // ---- Instants ----

  /** Whole seconds and the nanoseconds within one, as an instant is held. */
  datatype Instant = Instant(seconds: int, nanos: int)

  function InstantOf(nanos: int): Instant {
    var seconds := FloorDiv(nanos, NANOS);
    Instant(seconds, nanos - seconds * NANOS)
  }

  function SinceEpoch(i: Instant): int { i.seconds * NANOS + i.nanos }

  /** Before the epoch too, the nanoseconds within the second are not negative, and nothing is lost. */
  lemma InstantKeepsNanos(nanos: int)
    ensures 0 <= InstantOf(nanos).nanos < NANOS && SinceEpoch(InstantOf(nanos)) == nanos
  {
    FloorDivFloors(nanos, NANOS);
  }

  /** A date of whole milliseconds, or one with the nanoseconds below its millisecond. */
  datatype Date = Date(millis: int) | PreciseDate(millis: int, sub: int)

  const MILLI: nat := 1_000_000

  function DateOf(nanos: int): Date {
    if Remainder(nanos, MILLI) == 0 then Date(Quotient(nanos, MILLI))
    else PreciseDate(FloorDiv(nanos, MILLI), nanos - FloorDiv(nanos, MILLI) * MILLI)
  }

  function DateNanos(d: Date): int {
    match d
    case Date(millis) => millis * MILLI
    case PreciseDate(millis, sub) => millis * MILLI + sub
  }

  lemma DateKeepsNanos(nanos: int)
    ensures DateNanos(DateOf(nanos)) == nanos
    ensures DateOf(nanos).PreciseDate? ==> 0 < DateOf(nanos).sub < MILLI
  {
    FloorDivFloors(nanos, MILLI);
  }

  /** An instant's count of a unit, as both runtimes write it. */
  function Dumped(nanos: int, unit: nat): int
    requires unit > 0
  {
    FloorDiv(nanos * unit, NANOS)
  }

  /** It is the latest count that is not after the instant, on either side of the epoch. */
  lemma DumpIsLatest(nanos: int, unit: nat, count: int)
    requires unit > 0
    ensures count * NANOS <= nanos * unit <==> count <= Dumped(nanos, unit)
  {
    FloorDivFloors(nanos * unit, NANOS);
  }

  /** A whole count comes back exactly when it is a whole number of nanoseconds. */
  lemma DumpInvertsParse(ticks: int, unit: nat)
    requires unit > 0
    ensures Dumped(SinceEpoch(InstantOf(TickNanos(ticks, unit))), unit) == ticks <==> (ticks * NANOS) % unit == 0
    ensures Dumped(DateNanos(DateOf(TickNanos(ticks, unit))), unit) == Dumped(SinceEpoch(InstantOf(TickNanos(ticks, unit))), unit)
  {
    var n := TickNanos(ticks, unit);
    InstantKeepsNanos(n);
    DateKeepsNanos(n);
    FloorDivFloors(ticks * NANOS, unit);
    FloorDivFloors(n * unit, NANOS);
    WhatIsLost(ticks * NANOS, unit);
    SameCount(ticks, n * unit, Dumped(n, unit));
  }

  lemma WhatIsLost(n: int, unit: nat)
    requires unit > 0
    ensures n - (n / unit) * unit == n % unit >= 0
  {}

  lemma SameCount(ticks: int, scaled: int, count: int)
    requires count * NANOS <= scaled < (count + 1) * NANOS && scaled <= ticks * NANOS
    ensures count == ticks <==> scaled == ticks * NANOS
  {}

  /** So every count of a declared unit comes back, before the epoch and after. */
  lemma DeclaredUnitsComeBack(ticks: int, unit: nat, per: nat)
    requires unit > 0 && per * unit == NANOS
    ensures Dumped(SinceEpoch(InstantOf(TickNanos(ticks, unit))), unit) == ticks
  {
    WholeNanos(ticks, unit, per);
    MulAssoc(ticks, per, unit);
    FloorDivFloors(ticks * NANOS, unit);
    DumpInvertsParse(ticks, unit);
  }
}
