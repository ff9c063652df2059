/** When a number is out of range, by its value. */
module DecimalRange {
  import opened Radix
  import opened DecimalText

  /** Without a leading zero, the number of digits is the size of the number. */
  lemma {:induction false} ValueSize(d: seq<nat>, p: nat)
    requires IsDecimal(d) && (d != [] ==> d[0] > 0)
    ensures |d| > p <==> Value(d) >= Pow(10, p)
  {
    hide Value, Pow;
    if d == [] {
      assert Value([]) == 0 by { NoDigits(); }
    } else if |d| > p {
      Leading(d);
      PowGrows(p, |d| - 1);
    } else {
      ValueBound(d);
      PowGrows(|d|, p);
    }
  }

  lemma NoDigits()
    ensures Value([]) == 0
  {
  }

  lemma {:induction false} Leading(d: seq<nat>)
    requires d != [] && d[0] > 0
    ensures Value(d) >= Pow(10, |d| - 1)
  {
    hide Pow;
    var head, tail := d[..1], d[1..];
    assert d == head + tail;
    ValuePlus(head, tail);
    assert Value(head) >= 1 by { assert head[..0] == []; }
    AtLeast(Value(head), Pow(10, |tail|));
  }

  lemma AtLeast(x: nat, p: nat)
    requires x >= 1
    ensures x * p >= p
  {
  }

  /** The digits behind the first `m` are zeros exactly if the number is a multiple. */
  lemma TrailingZeros(d: seq<nat>, m: nat)
    requires IsDecimal(d) && m <= |d|
    ensures (forall i :: m <= i < |d| ==> d[i] == 0) <==> Value(d) % Pow(10, |d| - m) == 0
  {
    hide Value, Pow;
    var head, tail := d[..m], d[m..];
    assert d == head + tail;
    CutDivides(head, tail);
    ValueIsZero(tail);
    assert forall i :: m <= i < |d| ==> d[i] == tail[i - m];
  }

  /** The check of the integer part, by the value of the integer part. For a negative scale the digits beyond the
      precision may be zeros, as many as the scale allows. */
  lemma TooLongByValue(whole: seq<nat>, precision: nat, scale: int)
    requires IsDecimal(whole) && (whole != [] ==> whole[0] > 0)
    ensures scale >= 0 ==>
              (TooLong(whole, precision, scale)
               <==> Value(whole) >= Pow(10, MAX_DIGITS) || Value(whole) >= Pow(10, precision))
    ensures scale < 0 && |whole| <= precision ==>
              (TooLong(whole, precision, scale) <==> Value(whole) >= Pow(10, MAX_DIGITS))
    ensures scale < 0 && |whole| > precision ==>
              (TooLong(whole, precision, scale)
               <==> || Value(whole) >= Pow(10, MAX_DIGITS) || Value(whole) >= Pow(10, precision - scale)
                    || Value(whole) % Pow(10, |whole| - precision) != 0)
  {
    hide Value, Pow;
    ValueSize(whole, MAX_DIGITS);
    ValueSize(whole, precision);
    if scale < 0 {
      ValueSize(whole, precision - scale);
      if |whole| > precision {
        TrailingZeros(whole, precision);
      }
    }
  }

  /** Digits after the dot up to the last one that is not zero do not fit the precision together with the integer part,
      although the scale has room for them. An integer part of zero has no digits. */
  predicate FractionTooLong(n: Number, precision: nat, scale: int)
    requires IsDecimal(n.whole) && IsDecimal(n.fraction)
  {
    var k := Significant(n.fraction);
    n.dot && scale > 0 && k <= scale
    && if Value(n.whole) == 0 then k > precision else Scaled(n, k) >= Pow(10, precision)
  }

  /** The number is too large: by its integer part, by its significant digits, or for the sixteen bytes; with a negative
      scale, also if it is not a multiple of the unit. */
  ghost predicate BeyondRange(n: Number, precision: nat, scale: int)
    requires IsDecimal(n.whole) && IsDecimal(n.fraction)
  {
    || Value(n.whole) >= Pow(10, MAX_DIGITS)
    || if scale < 0 then Value(n.whole) % Unit(scale) != 0 || Value(n.whole) >= Pow(10, precision - scale)
       else
         || Value(n.whole) >= Pow(10, precision)
         || FractionTooLong(n, precision, scale)
         || Value(Stored(n, scale)) >= TWO_TO_128
  }

  /** What the driver checks is that. */
  lemma RangeByValue(n: Number, precision: nat, scale: int)
    requires IsDecimal(n.whole) && IsDecimal(n.fraction) && (n.whole != [] ==> n.whole[0] > 0) && precision > 0
    ensures OutOfRange(n, precision, scale) <==> BeyondRange(n, precision, scale)
  {
    hide Value, Pow, Significant, Decimal, Stored, TooLong, Scaled;
    if scale < 0 {
      NegativeRange(n, precision, scale);
    } else {
      TooLongByValue(n.whole, precision, scale);
      FractionByValue(n, precision);
    }
  }

  lemma FractionByValue(n: Number, precision: nat)
    requires IsDecimal(n.whole) && IsDecimal(n.fraction) && (n.whole != [] ==> n.whole[0] > 0)
    ensures var k := Significant(n.fraction);
            |n.whole| + k > precision
            <==> if Value(n.whole) == 0 then k > precision else Scaled(n, k) >= Pow(10, precision)
  {
    hide Value, Pow, Significant, Scaled;
    var k := Significant(n.fraction);
    ValueIsZero(n.whole);
    if n.whole != [] {
      PaddedIsScaled(n, k);
      ValueSize(n.whole + Padded(n.fraction, k), precision);
    }
  }

  lemma NegativeRange(n: Number, precision: nat, scale: int)
    requires IsDecimal(n.whole) && IsDecimal(n.fraction) && (n.whole != [] ==> n.whole[0] > 0)
    requires precision > 0 && scale < 0
    ensures OutOfRange(n, precision, scale) <==> BeyondRange(n, precision, scale)
    ensures !BeyondRange(n, precision, scale) ==> Value(Stored(n, scale)) < Pow(10, precision)
  {
    hide Value, Pow, Decimal;
    var v, u := Value(n.whole), Unit(scale);
    ValueSize(n.whole, MAX_DIGITS);
    ValueSize(n.whole, precision - scale);
    ValueSize(n.whole, precision);
    if v % u == 0 && v < Pow(10, MAX_DIGITS) {
      QuotientSize(v, precision, scale);
      if v < Pow(10, precision - scale) {
        ZerosAllowed(n.whole, precision, scale);
        StoredSmall(n, scale);
      }
    }
  }

  lemma QuotientSize(v: nat, precision: nat, scale: int)
    requires precision > 0 && scale < 0 && v % Unit(scale) == 0
    ensures |Decimal(v / Unit(scale))| > precision <==> v >= Pow(10, precision - scale)
    ensures v < Pow(10, precision - scale) ==> v / Unit(scale) < Pow(10, precision)
  {
    hide Value, Pow, Decimal;
    var u, q := Unit(scale), v / Unit(scale);
    PowPlus(10, precision, -scale);
    QuotientBelow(v, u, Pow(10, precision));
    DecimalSize(q, precision);
  }

  lemma QuotientBelow(v: nat, u: nat, p: nat)
    requires u > 0 && v % u == 0
    ensures v / u < p <==> v < p * u
  {
    var q := v / u;
    assert v == q * u;
    if q < p {
      Less(q, p, u);
    } else {
      Less(p, q + 1, u);
      assert (q + 1) * u == q * u + u;
    }
  }

  lemma Less(a: int, b: int, u: nat)
    requires u > 0 && a < b
    ensures a * u <= b * u - u
  {
    assert (b - 1) * u == b * u - u;
    assert a * u <= (b - 1) * u;
  }

  lemma DecimalSize(q: nat, p: nat)
    requires p > 0
    ensures |Decimal(q)| > p <==> q >= Pow(10, p)
  {
    hide Value, Pow, Decimal;
    var d := Decimal(q);
    if d[0] > 0 {
      ValueSize(d, p);
    } else {
      DecimalLength(0, p);
    }
  }

  /** A multiple of the unit that is not too large has enough zeros at its end. */
  lemma ZerosAllowed(whole: seq<nat>, precision: nat, scale: int)
    requires IsDecimal(whole) && scale < 0 && |whole| <= precision - scale && |whole| <= MAX_DIGITS
    requires Value(whole) % Unit(scale) == 0
    ensures !TooLong(whole, precision, scale)
  {
    hide Value, Pow;
    if |whole| > precision {
      var m := |whole| - precision;
      PowPlus(10, m, -scale - m);
      MultipleOfFactor(Value(whole), Pow(10, m), Pow(10, -scale - m));
      TrailingZeros(whole, precision);
    }
  }

  lemma MultipleOfFactor(v: nat, p: nat, q: nat)
    requires p > 0 && q > 0 && v % (p * q) == 0
    ensures v % p == 0
  {
    var d := v / (p * q);
    assert v == d * (p * q);
    assert d * (p * q) == (d * q) * p by {
      MulAssoc(d, q, p);
      assert p * q == q * p;
    }
    DivExact(d * q, p, 0);
  }

  lemma StoredSmall(n: Number, scale: int)
    requires IsDecimal(n.whole) && IsDecimal(n.fraction) && scale < 0 && |n.whole| <= MAX_DIGITS
    ensures Value(Stored(n, scale)) == Value(n.whole) / Unit(scale) < TWO_TO_128
  {
    hide Value, Pow, Decimal;
    NegativeFits(n, scale);
    ValueBound(n.whole);
    PowGrows(|n.whole|, MAX_DIGITS);
    TenthFits(Value(n.whole), scale);
  }

  lemma TenthFits(v: nat, scale: int)
    requires v < Pow(10, MAX_DIGITS) && scale < 0
    ensures v / Unit(scale) < TWO_TO_128
  {
    hide Pow;
    var u := Unit(scale);
    assert u >= 10 by { Grows(1, -scale); }
    assert Pow(10, MAX_DIGITS) == 10 * Pow(10, 38) by { PowNext(38); }
    TenTo38();
    var q := v / u;
    assert q * u <= v;
    TenTimes(q, u);
  }

  lemma TenTimes(q: nat, u: nat)
    requires u >= 10
    ensures 10 * q <= q * u
  {
    var more := u - 10;
    assert q * u == 10 * q + q * more;
  }

  // ---------- What is lost ----------

  /** The number times ten to the scale is no integer. */
  predicate Loses(n: Number, scale: nat) {
    Value(n.whole + n.fraction) * Pow(10, scale) % Pow(10, |n.fraction|) != 0
  }

  /** Digits are reported as lost exactly if the scaled number is no integer. */
  lemma TruncatedByValue(n: Number, scale: int)
    requires IsDecimal(n.whole) && IsDecimal(n.fraction) && (!n.dot ==> n.fraction == [])
    ensures Truncated(n, scale) <==> scale > 0 && Loses(n, scale)
  {
    hide Value, Pow, Significant;
    if scale > 0 {
      PaddedIsScaled(n, scale);
      NothingSignificantIn(n.fraction);
    }
  }

  lemma NothingSignificantIn(f: seq<nat>)
    ensures f == [] ==> Significant(f) == 0
  {
  }
}
