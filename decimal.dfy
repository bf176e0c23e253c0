/**
 * The numbers of `main.py`: `float()` applied to a captured `[\d.]+` numeral, and
 * `round(x, n)`. Numbers are exact reals; binary floating point is not modelled.
 */
module Decimal {
  import opened Text
  import opened Wrappers

  /** Ten to the power `n`. */
  function Pow10(n: nat): (r: nat)
    ensures r >= 1
  {
    if n == 0 then 1 else 10 * Pow10(n - 1)
  }

  /** `x` multiplied by `10^n`. */
  function Scale(x: real, n: nat): real {
    x * (Pow10(n) as real)
  }

  /** `x` divided by `10^n`. */
  function Unscale(x: real, n: nat): real {
    x / (Pow10(n) as real)
  }

  /** Scaling up and down by the same power of ten cancel. */
  lemma ScaleInverse(x: real, n: nat)
    ensures Scale(Unscale(x, n), n) == x && Unscale(Scale(x, n), n) == x
  {
  }

  /** Scaling down keeps the order. */
  lemma UnscaleMonotone(a: real, b: real, n: nat)
    requires a <= b
    ensures Unscale(a, n) <= Unscale(b, n)
  {
  }

  // ---------------------------------------------------------------------------
  // Numerals
  // ---------------------------------------------------------------------------

  /** What a `[\d.]+` capture can hold: digits and dots only. */
  predicate IsNumeral(s: string) {
    forall k :: 0 <= k < |s| ==> IsDigitOrDot(s[k])
  }

  predicate AllDigits(s: string) {
    forall k :: 0 <= k < |s| ==> IsDigit(s[k])
  }

  /** No dot follows the first dot. */
  predicate AtMostOneDot(s: string) {
    forall k :: DotIndex(s, 0) < k < |s| ==> s[k] != '.'
  }

  predicate HasDigit(s: string) {
    exists k :: 0 <= k < |s| && IsDigit(s[k])
  }

  /** A digits-and-dots numeral that `float()` accepts: at most one decimal point and at least one digit. */
  predicate WellFormed(s: string) {
    IsNumeral(s) && AtMostOneDot(s) && HasDigit(s)
  }

  /** Index of the first dot of `s`, or `|s|` when there is none. */
  function DotIndex(s: string, i: nat): (d: nat)
    requires i <= |s|
    decreases |s| - i
    ensures i <= d <= |s| && (d < |s| ==> s[d] == '.')
    ensures forall k :: i <= k < d ==> s[k] != '.'
  {
    if i == |s| || s[i] == '.' then i else DotIndex(s, i + 1)
  }

  /** The value of a string of decimal digits, most significant first. */
  function DigitsValue(ds: string): nat
    requires AllDigits(ds)
  {
    if ds == [] then 0 else DigitsValue(ds[..|ds| - 1]) * 10 + (ds[|ds| - 1] - '0') as int
  }

  /** The digits before the decimal point. */
  function IntPart(s: string): (r: string)
    requires IsNumeral(s) && AtMostOneDot(s)
    ensures AllDigits(r)
  {
    s[..DotIndex(s, 0)]
  }

  /** The digits after the decimal point (none when there is no point). */
  function FracPart(s: string): (r: string)
    requires IsNumeral(s) && AtMostOneDot(s)
    ensures AllDigits(r)
  {
    var d := DotIndex(s, 0);
    if d == |s| then [] else s[d + 1..]
  }

  /** The value `float()` gives a well-formed numeral, exactly. */
  function Value(s: string): (r: real)
    requires IsNumeral(s) && AtMostOneDot(s)
    ensures r >= 0.0
    ensures r >= DigitsValue(IntPart(s)) as real
  {
    var f := FracPart(s);
    DigitsValue(IntPart(s)) as real + Unscale(DigitsValue(f) as real, |f|)
  }

  /** Python's `float(s)` on a captured numeral: `None` stands for the `ValueError` it raises. */
  function ParseFloat(s: string): (r: Option<real>)
    requires IsNumeral(s)
    ensures r.Some? <==> AtMostOneDot(s) && HasDigit(s)
    ensures r.Some? ==> r.value >= 0.0
  {
    if AtMostOneDot(s) && HasDigit(s) then Some(Value(s)) else None
  }

  // ---------------------------------------------------------------------------
  // The value of a numeral, stated independently: its digits read as one integer,
  // scaled down by ten to the number of digits after the point
  // ---------------------------------------------------------------------------

  /** `s` with every dot removed. */
  function Undotted(s: string): (r: string)
    requires IsNumeral(s)
    ensures AllDigits(r)
  {
    if s == [] then []
    else if s[|s| - 1] == '.' then Undotted(s[..|s| - 1])
    else Undotted(s[..|s| - 1]) + [s[|s| - 1]]
  }

  /** Removing dots distributes over concatenation. */
  lemma {:induction false} UndottedAppend(a: string, b: string)
    requires IsNumeral(a) && IsNumeral(b)
    ensures IsNumeral(a + b) && Undotted(a + b) == Undotted(a) + Undotted(b)
  {
    if b != [] {
      var b' := b[..|b| - 1];
      assert (a + b)[..|a + b| - 1] == a + b';
      UndottedAppend(a, b');
    } else {
      assert a + b == a;
    }
  }

  /** A string of digits has no dot to remove. */
  lemma {:induction false} UndottedDigits(ds: string)
    requires AllDigits(ds)
    ensures IsNumeral(ds) && Undotted(ds) == ds
  {
    if ds != [] {
      UndottedDigits(ds[..|ds| - 1]);
    }
  }

  /** Reading `a + b` as one integer shifts `a` left by `|b|` digits. */
  lemma {:induction false} DigitsValueAppend(a: string, b: string)
    requires AllDigits(a) && AllDigits(b)
    ensures AllDigits(a + b) && DigitsValue(a + b) == DigitsValue(a) * Pow10(|b|) + DigitsValue(b)
  {
    if b == [] {
      assert a + b == a;
    } else {
      var b' := b[..|b| - 1];
      assert (a + b)[..|a + b| - 1] == a + b';
      DigitsValueAppend(a, b');
      var x, q, y, d := DigitsValue(a), Pow10(|b'|), DigitsValue(b'), (b[|b| - 1] - '0') as int;
      assert DigitsValue(a + b) == DigitsValue(a + b') * 10 + d;
      assert DigitsValue(b) == y * 10 + d;
      assert Pow10(|b|) == q * 10;
      ShiftDigit(x, q, y, d);
    }
  }

  /** Appending a digit to `x` followed by `y` appends it to `y`. */
  lemma ShiftDigit(x: int, q: int, y: int, d: int)
    ensures (x * q + y) * 10 + d == x * (q * 10) + (y * 10 + d)
  {
  }

  /** Removing the dot of a numeral joins the digits on either side of it. */
  lemma {:induction false} UndottedSplit(s: string)
    requires IsNumeral(s) && AtMostOneDot(s)
    ensures Undotted(s) == IntPart(s) + FracPart(s)
  {
    var d := DotIndex(s, 0);
    var i, f := IntPart(s), FracPart(s);
    UndottedDigits(i);
    UndottedDigits(f);
    if d == |s| {
      assert s == i && f == [];
      assert i + f == i;
    } else {
      assert s == i + ([s[d]] + f);
      UndottedAppend(i, [s[d]] + f);
      UndottedAppend([s[d]], f);
      assert Undotted([s[d]]) == [] by { assert [s[d]][..0] == []; }
      assert [] + f == f;
    }
  }

  /** Scaling a natural number up stays in the naturals. */
  lemma ScaleNat(a: nat, k: nat)
    ensures Scale(a as real, k) == (a * Pow10(k)) as real
  {
  }

  /** Scaling up distributes over a sum whose second term was scaled down. */
  lemma ScaleSum(a: real, b: real, k: nat)
    ensures Scale(a + Unscale(b, k), k) == Scale(a, k) + b
  {
    ScaleInverse(b, k);
  }

  /** An integer part plus a scaled-down fraction, scaled back up, is the digits read as one integer. */
  lemma ScaleParts(a: nat, b: nat, k: nat)
    ensures Scale(a as real + Unscale(b as real, k), k) == (a * Pow10(k) + b) as real
  {
    ScaleSum(a as real, b as real, k);
    ScaleNat(a, k);
  }

  /** The value of a numeral is its undotted digits over ten to the number of fraction digits. */
  lemma {:induction false} ValueIsScaledDigits(s: string)
    requires WellFormed(s)
    ensures Scale(Value(s), |FracPart(s)|) == DigitsValue(Undotted(s)) as real
  {
    var i, f := IntPart(s), FracPart(s);
    UndottedSplit(s);
    DigitsValueAppend(i, f);
    ScaleParts(DigitsValue(i), DigitsValue(f), |f|);
  }

  /** A string of digits reads as zero exactly when every digit is `0`. */
  lemma {:induction false} DigitsValueZero(ds: string)
    requires AllDigits(ds)
    ensures DigitsValue(ds) == 0 <==> forall k :: 0 <= k < |ds| ==> ds[k] == '0'
  {
    if ds != [] {
      DigitsValueZero(ds[..|ds| - 1]);
    }
  }

  /**
   * A numeral is falsy (`float()` gives 0.0) exactly when it has no non-zero digit,
   * as with "0", "0.00" or ".0".
   */
  lemma {:induction false} ValueZeroIffNoNonZeroDigit(s: string)
    requires WellFormed(s)
    ensures Value(s) == 0.0 <==> forall k :: 0 <= k < |s| ==> s[k] == '0' || s[k] == '.'
  {
    var i, f := IntPart(s), FracPart(s);
    var a, b := DigitsValue(i), DigitsValue(f);
    DigitsValueZero(i);
    DigitsValueZero(f);
    ZeroDigitsSplit(s);
    assert Value(s) == a as real + Unscale(b as real, |f|);
    ScaleInverse(b as real, |f|);
    UnscaleMonotone(0.0, b as real, |f|);
  }

  /** Every digit of a numeral is `0` exactly when every digit on both sides of its point is. */
  lemma ZeroDigitsSplit(s: string)
    requires WellFormed(s)
    ensures (forall k :: 0 <= k < |s| ==> s[k] == '0' || s[k] == '.') <==>
            (forall k :: 0 <= k < |IntPart(s)| ==> IntPart(s)[k] == '0') &&
            (forall k :: 0 <= k < |FracPart(s)| ==> FracPart(s)[k] == '0')
  {
    var d := DotIndex(s, 0);
    var i, f := IntPart(s), FracPart(s);
    assert forall k :: 0 <= k < |i| ==> i[k] == s[k];
    if d < |s| {
      assert forall k :: 0 <= k < |f| ==> f[k] == s[k + d + 1];
      if (forall k :: 0 <= k < |i| ==> i[k] == '0') && (forall k :: 0 <= k < |f| ==> f[k] == '0') {
        forall k | 0 <= k < |s| ensures s[k] == '0' || s[k] == '.' {
          if d < k { assert s[k] == f[k - d - 1]; }
        }
      }
    }
  }

  // ---------------------------------------------------------------------------
  // round(x, n)
  // ---------------------------------------------------------------------------

  /** Python's `abs` on a number. */
  function Abs(x: real): real {
    if x < 0.0 then -x else x
  }

  /** The integer nearest `y`, the even one of the two on a tie. */
  function RoundHalfEven(y: real): (m: int)
    ensures Abs(m as real - y) <= 0.5
    ensures Abs(m as real - y) == 0.5 ==> m % 2 == 0
  {
    var k := y.Floor;
    var f := y - k as real;
    if f < 0.5 then k else if f > 0.5 then k + 1 else if k % 2 == 0 then k else k + 1
  }

  /** No integer is nearer `y` than the one `RoundHalfEven` picks. */
  lemma RoundHalfEvenNearest(y: real, j: int)
    ensures Abs(RoundHalfEven(y) as real - y) <= Abs(j as real - y)
  {
    var k := y.Floor;
    if j <= k {
      assert Abs(j as real - y) >= y - k as real;
    } else {
      assert Abs(j as real - y) >= (k + 1) as real - y;
    }
  }

  /** `v` is an integer. */
  predicate IsWhole(v: real) {
    v.Floor as real == v
  }

  /** Scaling down scales distances down. */
  lemma UnscaleDistance(a: real, b: real, n: nat)
    ensures Abs(Unscale(a, n) - Unscale(b, n)) == Unscale(Abs(a - b), n)
  {
    var p := Pow10(n) as real;
    assert Unscale(a, n) - Unscale(b, n) == (a - b) / p;
    if a < b {
      assert (a - b) / p == -((b - a) / p);
      assert (b - a) / p > 0.0;
    } else {
      assert (a - b) / p >= 0.0;
    }
  }

  /** `r` has at most `n` digits after the decimal point. */
  predicate HasPlaces(r: real, n: nat) {
    IsWhole(Scale(r, n))
  }

  /** Half a unit in the `n`-th place after the point: the largest error of `round(x, n)`. */
  function HalfUnit(n: nat): real {
    Unscale(0.5, n)
  }

  /** Python's `round(x, n)` on an exact value: to the nearest multiple of `10^-n`, ties to even. */
  function Round(x: real, n: nat): (r: real)
    ensures HasPlaces(r, n)
    ensures x >= 0.0 ==> r >= 0.0
  {
    ScaleInverse(RoundHalfEven(Scale(x, n)) as real, n);
    Unscale(RoundHalfEven(Scale(x, n)) as real, n)
  }

  /** The result has `n` places and lies within half a unit of `x`. */
  lemma RoundBounds(x: real, n: nat)
    ensures HasPlaces(Round(x, n), n)
    ensures Abs(Round(x, n) - x) <= HalfUnit(n)
  {
    var y := Scale(x, n);
    var m := RoundHalfEven(y) as real;
    ScaleInverse(m, n);
    ScaleInverse(x, n);
    assert IsWhole(m);
    UnscaleDistance(m, y, n);
    UnscaleMonotone(Abs(m - y), 0.5, n);
  }

  /** No multiple of `10^-n` is nearer `x` than the result. */
  lemma RoundNearest(x: real, n: nat, j: int)
    ensures Abs(Round(x, n) - x) <= Abs(Unscale(j as real, n) - x)
  {
    var y := Scale(x, n);
    var m := RoundHalfEven(y) as real;
    RoundHalfEvenNearest(y, j);
    ScaleInverse(x, n);
    UnscaleDistance(m, y, n);
    UnscaleDistance(j as real, y, n);
    UnscaleMonotone(Abs(m - y), Abs(j as real - y), n);
  }

  /** Halfway between two candidates, the result is the one with an even last digit. */
  lemma RoundTieEven(x: real, n: nat)
    requires Abs(Round(x, n) - x) == HalfUnit(n)
    ensures Scale(Round(x, n), n).Floor % 2 == 0
  {
    var y := Scale(x, n);
    var m := RoundHalfEven(y);
    ScaleInverse(m as real, n);
    ScaleInverse(x, n);
    UnscaleDistance(m as real, y, n);
    ScaleInverse(Abs(m as real - y), n);
    ScaleInverse(0.5, n);
    assert Abs(m as real - y) == 0.5;
    assert (m as real).Floor == m;
  }

  /** A value that already has `n` places is left alone. */
  lemma RoundExact(x: real, n: nat)
    requires HasPlaces(x, n)
    ensures Round(x, n) == x
  {
    var y := Scale(x, n);
    assert RoundHalfEven(y) == y.Floor;
    ScaleInverse(x, n);
  }
}
