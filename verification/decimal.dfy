/**
 * Decimal strings compared digit by digit (packages/core-go/decimal.go), against the rational numbers
 * they spell. A rational is compared through its product with a power of ten that makes it whole.
 */
module Decimals {
  import opened Digits
  import opened SortedKeys
  import opened Wrappers

  datatype Exponent = Exponent(mark: char, sign: string, digits: string)

  /** The parts of a decimal string: `[+-]?(\d+\.?\d*|\.\d+)([eE][+-]?\d+)?`. */
  datatype Numeral = Numeral(sign: string, whole: string, point: bool, frac: string, exponent: Option<Exponent>)

  predicate IsSign(s: string) { s == "" || s == "+" || s == "-" }

  predicate WellFormed(p: Numeral) {
    && IsSign(p.sign) && AllDigits(p.whole) && AllDigits(p.frac)
    && (p.whole != "" || p.frac != "") && (p.frac != "" ==> p.point)
    && (p.exponent.Some? ==>
          var e := p.exponent.value;
          (e.mark == 'e' || e.mark == 'E') && IsSign(e.sign) && e.digits != "" && AllDigits(e.digits))
  }

  function MantissaText(p: Numeral): string { p.whole + (if p.point then "." else "") + p.frac }

  function ExponentText(p: Numeral): string {
    if p.exponent.None? then "" else [p.exponent.value.mark] + (p.exponent.value.sign + p.exponent.value.digits)
  }

  function Text(p: Numeral): string { p.sign + (MantissaText(p) + ExponentText(p)) }

  function Signed(sign: string, n: nat): int { if sign == "-" then -(n as int) else n }

  function Exp(p: Numeral): int
    requires WellFormed(p)
  {
    if p.exponent.None? then 0 else Signed(p.exponent.value.sign, ValueOf(p.exponent.value.digits))
  }

  /** The power of ten of the last digit. */
  function Ulp(p: Numeral): int
    requires WellFormed(p)
  {
    Exp(p) - |p.frac|
  }

  /** The number spelled, times ten to the `n`. */
  ghost function Scaled(p: Numeral, n: nat): int
    requires WellFormed(p) && n + Ulp(p) >= 0
  {
    Signed(p.sign, ValueOf(p.whole + p.frac)) * Pow10(n + Ulp(p))
  }

  function Sgn(x: int): int { if x < 0 then -1 else if x == 0 then 0 else 1 }

  function Scale(p: Numeral): nat
    requires WellFormed(p)
  {
    if Ulp(p) < 0 then -Ulp(p) else 0
  }

  /** The order of the two numbers spelled: -1, 0 or 1. */
  ghost function Order(p: Numeral, q: Numeral): int
    requires WellFormed(p) && WellFormed(q)
  {
    Sgn(Scaled(p, Scale(p) + Scale(q)) - Scaled(q, Scale(p) + Scale(q)))
  }

  lemma ScaledMore(p: Numeral, n: nat, k: nat)
    requires WellFormed(p) && n + Ulp(p) >= 0
    ensures Scaled(p, n + k) == Scaled(p, n) * Pow10(k)
  {
    Pow10Add(n + Ulp(p), k);
    MulAssoc(Signed(p.sign, ValueOf(p.whole + p.frac)), Pow10(n + Ulp(p)), Pow10(k));
    assert n + k + Ulp(p) == n + Ulp(p) + k;
  }

  /** Any scale that makes both numbers whole gives their order. */
  lemma OrderAtScale(p: Numeral, q: Numeral, n: nat)
    requires WellFormed(p) && WellFormed(q)
    requires n + Ulp(p) >= 0 && n + Ulp(q) >= 0
    ensures Order(p, q) == Sgn(Scaled(p, n) - Scaled(q, n))
  {
    var m := Scale(p) + Scale(q);
    ScaledMore(p, m, n);
    ScaledMore(q, m, n);
    ScaledMore(p, n, m);
    ScaledMore(q, n, m);
    assert m + n == n + m;
    SgnScaled(Scaled(p, m), Scaled(q, m), Pow10(n), Scaled(p, m + n), Scaled(q, m + n));
    SgnScaled(Scaled(p, n), Scaled(q, n), Pow10(m), Scaled(p, m + n), Scaled(q, m + n));
  }

  /** The order is a total preorder, and equal in it means equal in value. */
  lemma OrderIsTotalPreorder(p: Numeral, q: Numeral, r: Numeral)
    requires WellFormed(p) && WellFormed(q) && WellFormed(r)
    ensures Order(p, p) == 0
    ensures Order(q, p) == -Order(p, q)
    ensures Order(p, q) <= 0 && Order(q, r) <= 0 ==> Order(p, r) <= 0
    ensures Order(p, q) == 0 <==> forall n: nat :: n + Ulp(p) >= 0 && n + Ulp(q) >= 0 ==> Scaled(p, n) == Scaled(q, n)
  {
    var n := Scale(p) + Scale(q) + Scale(r);
    OrderAtScale(p, p, n);
    OrderAtScale(p, q, n);
    OrderAtScale(q, p, n);
    OrderAtScale(q, r, n);
    OrderAtScale(p, r, n);
    if Order(p, q) == 0 {
      forall m: nat | m + Ulp(p) >= 0 && m + Ulp(q) >= 0 ensures Scaled(p, m) == Scaled(q, m) {
        OrderAtScale(p, q, m);
      }
    }
  }

  /** Digits before and after the point, worth `whole.frac`, times ten to the `n`. */
  ghost function Worth(whole: string, frac: string, n: nat): nat
    requires AllDigits(whole) && AllDigits(frac) && |frac| <= n
  {
    ValueOf(whole + frac) * Pow10(n - |frac|)
  }

  /** A fraction padded to `n` digits. */
  function Pad(frac: string, n: nat): (r: string)
    requires |frac| <= n
    ensures |r| == n && (AllDigits(frac) ==> AllDigits(r))
  {
    frac + Zeros(n - |frac|)
  }

  lemma Regroup(a: nat, b: nat, c: nat, d: nat, e: nat)
    requires e == b * d
    ensures (a * b + c) * d == a * e + c * d
  {
    MulAdd(a * b, c, d);
    MulAssoc(a, b, d);
  }

  lemma WorthSplits(whole: string, frac: string, n: nat)
    requires AllDigits(whole) && AllDigits(frac) && |frac| <= n
    ensures Worth(whole, frac, n) == ValueOf(whole) * Pow10(n) + ValueOf(Pad(frac, n))
  {
    var k := n - |frac|;
    ValueConcat(whole, frac);
    ValuePadded(frac, k);
    Pow10Add(|frac|, k);
    Regroup(ValueOf(whole), Pow10(|frac|), ValueOf(frac), Pow10(k), Pow10(n));
  }

  function TrimLeft(s: string): (r: string)
    ensures r == "" || r[0] != '0'
    ensures |r| <= |s| && (AllDigits(s) ==> AllDigits(r))
  {
    if s != "" && s[0] == '0' then TrimLeft(s[1..]) else s
  }

  function TrimRight(s: string): (r: string)
    ensures |r| <= |s| && (AllDigits(s) ==> AllDigits(r))
    ensures r == "" || r[|r| - 1] != '0'
  {
    if s != "" && s[|s| - 1] == '0' then TrimRight(s[..|s| - 1]) else s
  }

  lemma {:induction false} TrimLeftWorth(s: string)
    requires AllDigits(s)
    ensures AllDigits(TrimLeft(s)) && ValueOf(TrimLeft(s)) == ValueOf(s)
  {
    if s != "" && s[0] == '0' {
      TrimLeftWorth(s[1..]);
      ValueCons(s);
    }
  }

  lemma {:induction false} TrimRightWorth(whole: string, s: string, n: nat)
    requires AllDigits(whole) && AllDigits(s) && |s| <= n
    ensures Worth(whole, TrimRight(s), n) == Worth(whole, s, n)
  {
    if s != "" && s[|s| - 1] == '0' {
      var init := s[..|s| - 1];
      TrimRightWorth(whole, init, n);
      assert (whole + s)[..|whole + s| - 1] == whole + init;
      MulAssoc(ValueOf(whole + init), 10, Pow10(n - |s|));
    }
  }

  lemma TrimmedWorth(whole: string, frac: string, n: nat)
    requires AllDigits(whole) && AllDigits(frac) && |frac| <= n
    ensures AllDigits(TrimLeft(whole)) && AllDigits(TrimRight(frac))
    ensures Worth(TrimLeft(whole), TrimRight(frac), n) == Worth(whole, frac, n)
  {
    TrimLeftWorth(whole);
    TrimRightWorth(whole, frac, n);
    WorthSplits(TrimLeft(whole), TrimRight(frac), n);
    WorthSplits(whole, TrimRight(frac), n);
  }

  /** The point moved right by `exp` digits, or left when negative. */
  function Shift(whole: string, frac: string, exp: int): (string, string) {
    if exp > 0 then
      var move := if |frac| > exp then frac[..exp] else frac;
      (whole + move + Zeros(exp - |move|), frac[|move|..])
    else if exp < 0 then
      var n := -exp;
      var move := if |whole| > n then whole[|whole| - n..] else whole;
      (whole[..|whole| - |move|], Zeros(n - |move|) + move + frac)
    else (whole, frac)
  }

  lemma ShiftRight(digits: string, k: nat, n: nat)
    requires AllDigits(digits)
    ensures AllDigits(digits + Zeros(k))
    ensures ValueOf(digits + Zeros(k)) * Pow10(n) == ValueOf(digits) * Pow10(k + n)
  {
    ValuePadded(digits, k);
    Pow10Add(k, n);
    MulAssoc(ValueOf(digits), Pow10(k), Pow10(n));
  }

  /** Moving the point multiplies by the power of ten. */
  lemma ShiftWorth(whole: string, frac: string, exp: int, n: nat)
    requires AllDigits(whole) && AllDigits(frac)
    requires n + exp - |frac| >= 0 && |Shift(whole, frac, exp).1| <= n
    ensures var (w, f) := Shift(whole, frac, exp);
            && AllDigits(w) && AllDigits(f)
            && Worth(w, f, n) == ValueOf(whole + frac) * Pow10(n + exp - |frac|)
  {
    var (w, f) := Shift(whole, frac, exp);
    var digits := whole + frac;
    if exp > |frac| {
      assert w + f == digits + Zeros(exp - |frac|) && f == "";
      ShiftRight(digits, exp - |frac|, n);
    } else if exp < 0 && -exp > |whole| {
      assert w + f == Zeros(-exp - |whole|) + digits;
      ValuePadded(digits, -exp - |whole|);
    } else {
      assert w + f == digits;
    }
  }

  lemma LeadingDigitDecides(x: nat, y: nat, p: nat, r: nat, t: nat)
    requires r < p && t < p
    ensures x < y ==> x * p + r < y * p + t
    ensures x * p + r == y * p + t ==> x == y && r == t
  {
    if x < y {
      MulMonotone(x + 1, y, p);
      MulAdd(x, 1, p);
    } else if y < x {
      MulMonotone(y + 1, x, p);
      MulAdd(y, 1, p);
    }
  }

  /** Digit strings of one length compare as their values do. */
  lemma {:induction false} LessIsSmaller(a: string, b: string)
    requires AllDigits(a) && AllDigits(b) && |a| == |b|
    ensures Less(a, b) <==> ValueOf(a) < ValueOf(b)
    ensures a == b <==> ValueOf(a) == ValueOf(b)
  {
    if a != "" {
      var x, y := a[1..], b[1..];
      LessIsSmaller(x, y);
      assert a == [a[0]] + x && b == [b[0]] + y;
      ValueCons(a);
      ValueCons(b);
      ValueBound(x);
      ValueBound(y);
      LeadingDigitDecides(DigitValue(a[0]), DigitValue(b[0]), Pow10(|x|), ValueOf(x), ValueOf(y));
      LeadingDigitDecides(DigitValue(b[0]), DigitValue(a[0]), Pow10(|x|), ValueOf(y), ValueOf(x));
    }
  }

  lemma LongerIsLarger(a: string, b: string)
    requires AllDigits(a) && AllDigits(b) && |a| < |b| && b[0] != '0'
    ensures ValueOf(a) < ValueOf(b)
  {
    ValueCons(b);
    ValueBound(a);
    MulMonotone(1, DigitValue(b[0]), Pow10(|b| - 1));
    Pow10Add(|a|, |b| - 1 - |a|);
    MulMonotone(1, Pow10(|b| - 1 - |a|), Pow10(|a|));
  }

  function Split(p: Numeral): (int, string, string)
    requires WellFormed(p)
  {
    var (w, f) := Shift(p.whole, p.frac, Exp(p));
    var (whole, frac) := (TrimLeft(w), TrimRight(f));
    (if p.sign == "-" && (whole != "" || frac != "") then -1 else 1, whole, frac)
  }

  function IndexOfAny(s: string, marks: string): (i: nat)
    ensures i <= |s|
  {
    if s == "" || s[0] in marks then 0 else 1 + IndexOfAny(s[1..], marks)
  }

  lemma {:induction false} IndexOfAnySplits(s: string, rest: string, marks: string)
    requires forall c :: c in s ==> c !in marks
    requires rest == "" || rest[0] in marks
    ensures IndexOfAny(s + rest, marks) == |s|
  {
    if s == "" {
      assert s + rest == rest;
    } else {
      assert (s + rest)[1..] == s[1..] + rest;
      assert s[0] in s;
      IndexOfAnySplits(s[1..], rest, marks);
    }
  }

  /** An optional sign, then digits. */
  method Atoi(s: string, ghost sign: string, ghost digits: string) returns (n: int)
    requires IsSign(sign) && digits != "" && AllDigits(digits) && s == sign + digits
    ensures n == Signed(sign, ValueOf(digits))
  {
    if s[0] == '-' {
      assert s[1..] == digits;
      n := -(ValueOf(s[1..]) as int);
    } else if s[0] == '+' {
      assert s[1..] == digits;
      n := ValueOf(s[1..]);
    } else {
      assert s == digits;
      n := ValueOf(s);
    }
  }

  lemma MantissaStarts(p: Numeral)
    requires WellFormed(p)
    ensures MantissaText(p) != "" && (IsDigit(MantissaText(p)[0]) || MantissaText(p)[0] == '.')
    ensures forall c :: c in MantissaText(p) ==> c !in "eE"
  {
    var mantissa := MantissaText(p);
    forall c | c in mantissa ensures c !in "eE" {
      var i :| 0 <= i < |mantissa| && mantissa[i] == c;
      assert IsDigit(c) || c == '.';
    }
  }

  /** A numeral's text opens with its sign. */
  lemma SignLayout(p: Numeral)
    requires WellFormed(p)
    ensures var body := MantissaText(p) + ExponentText(p);
            && |Text(p)| > 0
            && (Text(p)[0] == '-' <==> p.sign == "-") && (Text(p)[0] == '+' <==> p.sign == "+")
            && (p.sign == "" ==> Text(p) == body) && (p.sign != "" ==> Text(p)[1..] == body)
  {
    MantissaStarts(p);
    if p.sign == "" {
      assert Text(p) == MantissaText(p) + ExponentText(p);
    }
  }

  /** The first exponent mark ends the mantissa. */
  lemma ExponentLayout(p: Numeral)
    requires WellFormed(p)
    ensures var m := MantissaText(p);
            var body := m + ExponentText(p);
            && IndexOfAny(body, "eE") == |m| && body[..|m|] == m
            && (p.exponent.None? ==> body == m)
            && (p.exponent.Some? ==> |m| < |body| && body[|m| + 1..] == p.exponent.value.sign + p.exponent.value.digits)
  {
    MantissaStarts(p);
    IndexOfAnySplits(MantissaText(p), ExponentText(p), "eE");
  }

  lemma PointLayout(p: Numeral)
    requires WellFormed(p)
    ensures var m := MantissaText(p);
            && IndexOfAny(m, ".") == |p.whole| && m[..|p.whole|] == p.whole
            && (p.point ==> |p.whole| < |m| && m[|p.whole| + 1..] == p.frac)
            && (!p.point ==> m == p.whole)
  {
    var tail := (if p.point then "." else "") + p.frac;
    assert MantissaText(p) == p.whole + tail;
    IndexOfAnySplits(p.whole, tail, ".");
  }

  lemma SameSuffix(m: string, a: string, b: string)
    requires m + a == m + b
    ensures a == b
  {
    assert a == (m + a)[|m|..] && b == (m + b)[|m|..];
  }

  lemma SameSignedDigits(s: string, a: string, t: string, b: string)
    requires IsSign(s) && IsSign(t) && AllDigits(a) && AllDigits(b) && a != "" && b != ""
    requires s + a == t + b
    ensures s == t && a == b
  {
    assert (s + a)[0] == if s == "" then a[0] else s[0];
    assert (t + b)[0] == if t == "" then b[0] else t[0];
    assert s == t;
    SameSuffix(s, a, b);
  }

  lemma SameMantissa(p: Numeral, q: Numeral)
    requires WellFormed(p) && WellFormed(q) && Text(p) == Text(q)
    ensures p.sign == q.sign && MantissaText(p) == MantissaText(q) && ExponentText(p) == ExponentText(q)
  {
    SignLayout(p);
    SignLayout(q);
    ExponentLayout(p);
    ExponentLayout(q);
    SameSuffix(MantissaText(p), ExponentText(p), ExponentText(q));
  }

  lemma SamePoint(p: Numeral, q: Numeral)
    requires WellFormed(p) && WellFormed(q) && MantissaText(p) == MantissaText(q)
    ensures p.whole == q.whole && p.point == q.point && p.frac == q.frac
  {
    PointLayout(p);
    PointLayout(q);
    assert |p.whole| == |q.whole|;
  }

  lemma SameExponent(x: Exponent, y: Exponent)
    requires IsSign(x.sign) && IsSign(y.sign) && AllDigits(x.digits) && AllDigits(y.digits)
    requires x.digits != "" && y.digits != ""
    requires [x.mark] + (x.sign + x.digits) == [y.mark] + (y.sign + y.digits)
    ensures x == y
  {
    var a, b := x.sign + x.digits, y.sign + y.digits;
    assert ([x.mark] + a)[0] == x.mark && ([y.mark] + b)[0] == y.mark;
    SameSuffix([x.mark], a, b);
    SameSignedDigits(x.sign, x.digits, y.sign, y.digits);
  }

  /** A decimal string has one reading. */
  lemma TextUnambiguous(p: Numeral, q: Numeral)
    requires WellFormed(p) && WellFormed(q) && Text(p) == Text(q)
    ensures p == q
  {
    SameMantissa(p, q);
    SamePoint(p, q);
    if p.exponent.Some? && q.exponent.Some? {
      SameExponent(p.exponent.value, q.exponent.value);
    }
  }

  method ShiftPoint(whole: string, fraction: string, exp: int) returns (intPart: string, frac: string)
    ensures (intPart, frac) == Shift(whole, fraction, exp)
  {
    intPart, frac := whole, fraction;
    if exp > 0 {
      var move := frac;
      if |move| > exp {
        move := frac[..exp];
      }
      intPart := intPart + move + Zeros(exp - |move|);
      frac := frac[|move|..];
    } else if exp < 0 {
      var n := -exp;
      var move := intPart;
      if |move| > n {
        move := intPart[|intPart| - n..];
      }
      frac := Zeros(n - |move|) + move + frac;
      intPart := intPart[..|intPart| - |move|];
    }
  }

  method DropSign(d: string, ghost p: Numeral) returns (sign: int, s: string)
    requires WellFormed(p) && d == Text(p)
    ensures sign == (if p.sign == "-" then -1 else 1) && s == MantissaText(p) + ExponentText(p)
  {
    SignLayout(p);
    sign, s := 1, d;
    if s[0] == '-' {
      sign, s := -1, s[1..];
    } else if s[0] == '+' {
      s := s[1..];
    }
  }

  method DropExponent(body: string, ghost p: Numeral) returns (exp: int, s: string)
    requires WellFormed(p) && body == MantissaText(p) + ExponentText(p)
    ensures exp == Exp(p) && s == MantissaText(p)
  {
    ExponentLayout(p);
    exp, s := 0, body;
    var e := IndexOfAny(s, "eE");
    if e < |s| {
      exp := Atoi(s[e + 1..], p.exponent.value.sign, p.exponent.value.digits);
      s := s[..e];
    }
  }

  method DropPoint(mantissa: string, ghost p: Numeral) returns (whole: string, frac: string)
    requires WellFormed(p) && mantissa == MantissaText(p)
    ensures whole == p.whole && frac == p.frac
  {
    PointLayout(p);
    whole, frac := mantissa, "";
    var dot := IndexOfAny(mantissa, ".");
    if dot < |mantissa| {
      whole, frac := mantissa[..dot], mantissa[dot + 1..];
    }
  }

  method SplitDecimal(d: string, ghost p: Numeral) returns (sign: int, intPart: string, frac: string)
    requires WellFormed(p) && d == Text(p)
    ensures (sign, intPart, frac) == Split(p)
  {
    var s, exp;
    sign, s := DropSign(d, p);
    exp, s := DropExponent(s, p);
    intPart, frac := DropPoint(s, p);
    intPart, frac := ShiftPoint(intPart, frac, exp);
    intPart := TrimLeft(intPart);
    frac := TrimRight(frac);
    if intPart == "" && frac == "" {
      sign := 1;
    }
  }

  function Max(a: nat, b: nat): nat { if a < b then b else a }

  /** Trimmed parts compared: the longer integer is larger, then digits decide. */
  function CompareDigits(wa: string, fa: string, wb: string, fb: string): int {
    if |wa| != |wb| then if |wa| < |wb| then -1 else 1
    else if wa != wb then if Less(wa, wb) then -1 else 1
    else
      var n := Max(|fa|, |fb|);
      var (pa, pb) := (Pad(fa, n), Pad(fb, n));
      if pa == pb then 0 else if Less(pa, pb) then -1 else 1
  }

  lemma TrimmedPositive(whole: string, frac: string, n: nat)
    requires AllDigits(whole) && AllDigits(frac) && |frac| <= n
    requires whole != "" || frac != ""
    requires (whole != "" ==> whole[0] != '0') && (frac != "" ==> frac[|frac| - 1] != '0')
    ensures Worth(whole, frac, n) > 0
  {
    var all := whole + frac;
    if frac != "" {
      assert all[|all| - 1] == frac[|frac| - 1];
      assert ValueOf(all) > 0;
    } else {
      assert all == whole;
      ValueCons(all);
      MulMonotone(1, DigitValue(all[0]), Pow10(|all| - 1));
    }
    MulMonotone(1, ValueOf(all), Pow10(n - |frac|));
  }

  lemma TrimmedZero(n: nat)
    ensures Worth("", "", n) == 0
  {
    assert "" + "" == "";
  }

  lemma NegMul(v: int, k: int)
    ensures (-v) * k == -(v * k)
  {}

  /** The split parts are worth the number spelled. */
  lemma SplitWorth(p: Numeral, n: nat)
    requires WellFormed(p) && n + Ulp(p) >= 0 && |Shift(p.whole, p.frac, Exp(p)).1| <= n
    ensures var (sign, whole, frac) := Split(p);
            && AllDigits(whole) && AllDigits(frac) && |frac| <= n
            && (sign == 1 || (sign == -1 && Worth(whole, frac, n) > 0))
            && Scaled(p, n) == (if sign == -1 then -(Worth(whole, frac, n) as int) else Worth(whole, frac, n))
  {
    var (w, f) := Shift(p.whole, p.frac, Exp(p));
    ShiftWorth(p.whole, p.frac, Exp(p), n);
    TrimmedWorth(w, f, n);
    var whole, frac := TrimLeft(w), TrimRight(f);
    assert n + Exp(p) - |p.frac| == n + Ulp(p);
    NegMul(ValueOf(p.whole + p.frac), Pow10(n + Ulp(p)));
    if whole == "" && frac == "" {
      TrimmedZero(n);
    } else {
      TrimmedPositive(whole, frac, n);
    }
  }

  lemma HighPartDecides(x: nat, y: nat, p: nat, r: nat, t: nat)
    requires r < p && t < p
    ensures Sgn(x * p + r - (y * p + t)) == if x < y then -1 else if y < x then 1 else Sgn(r - t)
  {
    LeadingDigitDecides(x, y, p, r, t);
    LeadingDigitDecides(y, x, p, t, r);
  }

  lemma PadMore(f: string, m: nat, n: nat)
    requires AllDigits(f) && |f| <= m <= n
    ensures ValueOf(Pad(f, n)) == ValueOf(Pad(f, m)) * Pow10(n - m)
  {
    var q := Pad(f, m);
    assert Pad(f, n) == q + Zeros(n - m);
    ValuePadded(q, n - m);
  }

  lemma SgnScaled(x: int, y: int, k: nat, xk: int, yk: int)
    requires k > 0 && xk == x * k && yk == y * k
    ensures Sgn(xk - yk) == Sgn(x - y)
  {
    if x < y {
      MulMonotone(x + 1, y, k);
      MulAdd(x, 1, k);
    } else if y < x {
      MulMonotone(y + 1, x, k);
      MulAdd(y, 1, k);
    }
  }

  lemma PaddedOrder(qa: string, qb: string)
    requires AllDigits(qa) && AllDigits(qb) && |qa| == |qb|
    ensures Sgn(ValueOf(qa) - ValueOf(qb)) == if qa == qb then 0 else if Less(qa, qb) then -1 else 1
  {
    LessIsSmaller(qa, qb);
  }

  /** Padding both fractions further does not change how they compare. */
  lemma FractionOrder(fa: string, fb: string, n: nat)
    requires AllDigits(fa) && AllDigits(fb) && |fa| <= n && |fb| <= n
    ensures Sgn(ValueOf(Pad(fa, n)) - ValueOf(Pad(fb, n))) == CompareDigits("", fa, "", fb)
  {
    var m := Max(|fa|, |fb|);
    PadMore(fa, m, n);
    PadMore(fb, m, n);
    var qa, qb := Pad(fa, m), Pad(fb, m);
    var pa, pb := Pad(fa, n), Pad(fb, n);
    var va, vb, wa, wb, k := ValueOf(pa), ValueOf(pb), ValueOf(qa), ValueOf(qb), Pow10(n - m);
    SgnScaled(wa, wb, k, va, vb);
    PaddedOrder(qa, qb);
  }

  /** Comparing trimmed parts digit by digit compares their worth. */
  lemma WorthOrder(wa: string, fa: string, wb: string, fb: string, n: nat)
    requires AllDigits(wa) && AllDigits(fa) && AllDigits(wb) && AllDigits(fb) && |fa| <= n && |fb| <= n
    requires (wa != "" ==> wa[0] != '0') && (wb != "" ==> wb[0] != '0')
    ensures CompareDigits(wa, fa, wb, fb) == Sgn(Worth(wa, fa, n) - Worth(wb, fb, n))
  {
    WorthSplits(wa, fa, n);
    WorthSplits(wb, fb, n);
    var pa, pb := Pad(fa, n), Pad(fb, n);
    ValueBound(pa);
    ValueBound(pb);
    HighPartDecides(ValueOf(wa), ValueOf(wb), Pow10(n), ValueOf(pa), ValueOf(pb));
    FractionOrder(fa, fb, n);
    if |wa| < |wb| {
      LongerIsLarger(wa, wb);
    } else if |wb| < |wa| {
      LongerIsLarger(wb, wa);
    } else {
      LessIsSmaller(wa, wb);
    }
  }

  /** Comparing the parts of two numerals gives the order of the numbers they spell. */
  lemma PartsOrder(p: Numeral, q: Numeral)
    requires WellFormed(p) && WellFormed(q)
    ensures var ((sa, wa, fa), (sb, wb, fb)) := (Split(p), Split(q));
            Order(p, q) ==
            if sa != sb then if sa < sb then -1 else 1
            else if sa < 0 then -CompareDigits(wa, fa, wb, fb) else CompareDigits(wa, fa, wb, fb)
  {
    var n := Scale(p) + Scale(q) + |Shift(p.whole, p.frac, Exp(p)).1| + |Shift(q.whole, q.frac, Exp(q)).1|;
    SplitWorth(p, n);
    SplitWorth(q, n);
    OrderAtScale(p, q, n);
    WorthOrder(Split(p).1, Split(p).2, Split(q).1, Split(q).2, n);
  }

  method CompareParts(ia: string, fa: string, ib: string, fb: string) returns (cmp: int)
    ensures cmp == CompareDigits(ia, fa, ib, fb)
  {
    cmp := 0;
    if |ia| != |ib| {
      cmp := if |ia| < |ib| then -1 else 1;
    } else if ia != ib {
      cmp := if Less(ia, ib) then -1 else 1;
    } else {
      var n := Max(|fa|, |fb|);
      var pa := Pad(fa, n);
      var pb := Pad(fb, n);
      cmp := if pa == pb then 0 else if Less(pa, pb) then -1 else 1;
    }
  }

  /** `d` compared with `other`: the order of the two rational numbers. */
  method Compare(d: string, other: string, ghost p: Numeral, ghost q: Numeral) returns (cmp: int)
    requires WellFormed(p) && WellFormed(q) && d == Text(p) && other == Text(q)
    ensures cmp == Order(p, q)
  {
    var sa, ia, fa := SplitDecimal(d, p);
    var sb, ib, fb := SplitDecimal(other, q);
    PartsOrder(p, q);
    if sa != sb {
      return if sa < sb then -1 else 1;
    }
    cmp := CompareParts(ia, fa, ib, fb);
    cmp := cmp * sa;
  }
}
