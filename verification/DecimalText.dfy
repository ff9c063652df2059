/** Decimal text as MADB_CharToSQLNumeric reads it, and what has to be stored for it. */
module DecimalText {
  import opened Radix

  predicate IsDigit(c: char) { '0' <= c <= '9' }

  function DigitOf(c: char): (d: nat)
    requires IsDigit(c)
    ensures d <= 9
  {
    c as int - '0' as int
  }

  function CharOf(d: nat): (c: char)
    requires d <= 9
    ensures IsDigit(c) && DigitOf(c) == d
  {
    (d + '0' as int) as char
  }

  function Digits(s: string): (d: seq<nat>)
    requires forall i :: 0 <= i < |s| ==> IsDigit(s[i])
    ensures |d| == |s| && IsDecimal(d)
  {
    seq(|s|, i requires 0 <= i < |s| => DigitOf(s[i]))
  }

  function Text(d: seq<nat>): (s: string)
    requires IsDecimal(d)
    ensures |s| == |d| && (forall i :: 0 <= i < |s| ==> s[i] == CharOf(d[i])) && Digits(s) == d
  {
    seq(|d|, i requires 0 <= i < |d| => CharOf(d[i]))
  }

  /** The end of the run of digits that starts at `i`. */
  function DigitsEnd(s: string, i: nat): (k: nat)
    requires i <= |s|
    ensures i <= k <= |s| && (forall j :: i <= j < k ==> IsDigit(s[j])) && (k < |s| ==> !IsDigit(s[k]))
    decreases |s| - i
  {
    if i == |s| || !IsDigit(s[i]) then i else DigitsEnd(s, i + 1)
  }

  function SkipZeros(s: string, i: nat): (k: nat)
    requires i <= |s|
    ensures i <= k <= |s| && (forall j :: i <= j < k ==> s[j] == '0') && (k < |s| ==> s[k] != '0')
    decreases |s| - i
  {
    if i == |s| || s[i] != '0' then i else SkipZeros(s, i + 1)
  }

  /** The first occurrence of a character, or the length. */
  function Find(s: string, c: char, i: nat): (k: nat)
    requires i <= |s|
    ensures i <= k <= |s| && (forall j :: i <= j < k ==> s[j] != c) && (k < |s| ==> s[k] == c)
    decreases |s| - i
  {
    if i == |s| || s[i] == c then i else Find(s, c, i + 1)
  }

  /** The magnitude is Value(whole + fraction) / 10^|fraction|. */
  datatype Number = Number(sign: nat, whole: seq<nat>, dot: bool, fraction: seq<nat>)

  function Start(s: string): nat { if s != [] && s[0] == '-' then 1 else 0 }

  /** There is nothing but digits before the dot, if there is one. */
  ghost predicate Plain(s: string) {
    var p := SkipZeros(s, Start(s));
    var dot := Find(s, '.', p);
    dot < |s| ==> forall j :: p <= j < dot ==> IsDigit(s[j])
  }

  function Read(s: string): (n: Number)
    requires Plain(s)
    ensures IsDecimal(n.whole) && IsDecimal(n.fraction) && (n.whole != [] ==> n.whole[0] > 0)
    ensures !n.dot ==> n.fraction == []
  {
    var sign := 1 - Start(s);
    var p := SkipZeros(s, Start(s));
    var dot := Find(s, '.', p);
    if dot < |s| then
      Number(sign, Digits(s[p..dot]), true, Digits(s[dot + 1..DigitsEnd(s, dot + 1)]))
    else
      Number(sign, Digits(s[p..DigitsEnd(s, p)]), false, [])
  }

  /** What is read, place by place: a minus sign if there is one, zeros, the digits of the whole part up to the dot,
      and the digits behind it up to something that is no digit. */
  lemma ReadsPlaces(s: string, sign: nat, p: nat, dot: nat, end: nat)
    requires sign <= 1 && 1 - sign <= p <= dot < end <= |s|
    requires (sign == 0 <==> s[0] == '-') && (forall i :: 1 - sign <= i < p ==> s[i] == '0')
    requires s[p] != '0' && s[dot] == '.' && (end < |s| ==> !IsDigit(s[end]))
    requires (forall i :: p <= i < dot ==> IsDigit(s[i])) && forall i :: dot < i < end ==> IsDigit(s[i])
    ensures Plain(s) && Read(s) == Number(sign, Digits(s[p..dot]), true, Digits(s[dot + 1..end]))
  {
    assert Start(s) == 1 - sign;
    assert SkipZeros(s, Start(s)) == p;
    assert Find(s, '.', p) == dot;
    assert DigitsEnd(s, dot + 1) == end;
  }

  /** The same without a dot anywhere behind the zeros. */
  lemma ReadsWhole(s: string, sign: nat, p: nat, end: nat)
    requires sign <= 1 && 1 - sign <= p <= end <= |s| && (sign == 0 <==> s != "" && s[0] == '-')
    requires (forall i :: 1 - sign <= i < p ==> s[i] == '0') && (p < |s| ==> s[p] != '0')
    requires (forall i :: p <= i < |s| ==> s[i] != '.')
    requires (forall i :: p <= i < end ==> IsDigit(s[i])) && (end < |s| ==> !IsDigit(s[end]))
    ensures Plain(s) && Read(s) == Number(sign, Digits(s[p..end]), false, [])
  {
    assert Start(s) == 1 - sign;
    assert SkipZeros(s, Start(s)) == p;
    assert Find(s, '.', p) == |s|;
    assert DigitsEnd(s, p) == end;
  }

  /** The number of digits of the fraction up to its last non-zero one. */
  function Significant(f: seq<nat>): (k: nat)
    ensures k <= |f| && (k > 0 ==> f[k - 1] != 0) && forall j :: k <= j < |f| ==> f[j] == 0
  {
    if f == [] then 0 else if f[|f| - 1] != 0 then |f| else Significant(f[..|f| - 1])
  }

  /** Exactly `scale` digits of the fraction. */
  function Padded(f: seq<nat>, scale: nat): (d: seq<nat>)
    requires IsDecimal(f)
    ensures |d| == scale && IsDecimal(d)
  {
    if scale <= |f| then f[..scale] else f + Zeros(scale - |f|)
  }

  function Unit(scale: int): nat
    requires scale < 0
  {
    Pow(10, -scale)
  }

  const MAX_DIGITS := 39   // 16 bytes of 0xff make a number of 39 digits

  function Cut(d: seq<nat>): seq<nat> { if |d| <= MAX_DIGITS then d else d[..MAX_DIGITS] }

  /** The digits that get converted to bytes. */
  function Stored(n: Number, scale: int): (d: seq<nat>)
    requires IsDecimal(n.whole) && IsDecimal(n.fraction)
    ensures IsDecimal(d)
  {
    Cut(if scale < 0 then Decimal(Value(n.whole) / Unit(scale))
        else if n.dot && scale > 0 then n.whole + Padded(n.fraction, scale)
        else n.whole)
  }

  /** The integer part alone has too many digits. */
  predicate TooLong(whole: seq<nat>, precision: nat, scale: int) {
    || |whole| > MAX_DIGITS
    || (|whole| > precision
        && !(scale < 0 && precision - scale >= |whole| && forall i :: precision <= i < |whole| ==> whole[i] == 0))
  }

  ghost predicate OutOfRange(n: Number, precision: nat, scale: int)
    requires IsDecimal(n.whole) && IsDecimal(n.fraction)
  {
    || TooLong(n.whole, precision, scale)
    || (n.dot && scale > 0 && |n.whole| + Significant(n.fraction) > precision && Significant(n.fraction) <= scale)
    || (scale < 0 && (Value(n.whole) % Unit(scale) != 0 || |Decimal(Value(n.whole) / Unit(scale))| > precision))
    || Value(Stored(n, scale)) >= TWO_TO_128
  }

  ghost predicate Truncated(n: Number, scale: int) { n.dot && scale > 0 && Significant(n.fraction) > scale }

  // ---------- What the stored digits mean ----------

  /** floor(|x| * 10^scale). */
  function Scaled(n: Number, scale: int): nat {
    var v, unit := Value(n.whole + n.fraction), Pow(10, |n.fraction|);
    if scale >= 0 then Quotient(Product(v, Pow(10, scale)), unit) else Quotient(Quotient(v, unit), Unit(scale))
  }

  function Product(a: nat, b: nat): nat { a * b }

  function Quotient(a: nat, p: nat): nat
    requires p > 0
  {
    a / p
  }

  lemma Grows(h: nat, k: nat)
    requires k > 0
    ensures h * Pow(10, k) >= 10 * h
  {
    MulAssoc(h, 10, Pow(10, k - 1));
    assert (h * 10) * Pow(10, k - 1) >= h * 10;
  }

  /** Cutting a digit string is division by a power of ten. */
  lemma CutDivides(a: seq<nat>, b: seq<nat>)
    requires IsDecimal(b)
    ensures Value(a + b) / Pow(10, |b|) == Value(a) && Value(a + b) % Pow(10, |b|) == Value(b)
  {
    ValuePlus(a, b);
    ValueBound(b);
    DivExact(Value(a), Pow(10, |b|), Value(b));
  }

  /** Appending zeros is multiplication. */
  lemma AppendMultiplies(a: seq<nat>, k: nat)
    ensures Value(a + Zeros(k)) == Value(a) * Pow(10, k)
  {
    ValuePlus(a, Zeros(k));
    ValueZeros(k);
  }

  lemma CommonFactor(x: nat, p: nat, q: nat)
    requires p > 0 && q > 0
    ensures (x * p) / (q * p) == x / q && ((x * p) % (q * p) == 0 <==> x % q == 0)
  {
    var d, r := x / q, x % q;
    assert x * p == d * (q * p) + r * p by {
      assert x == d * q + r;
      MulAssoc(d, q, p);
    }
    assert r * p < q * p;
    DivExact(d, q * p, r * p);
    if r != 0 {
      assert r * p > 0;
    }
  }

  /** Digits of the fraction that are cut off. */
  lemma CutIsScaled(whole: seq<nat>, f: seq<nat>, scale: nat)
    requires IsDecimal(f) && scale <= |f|
    ensures Value(whole + f[..scale]) == Value(whole + f) * Pow(10, scale) / Pow(10, |f|)
    ensures Value(f[scale..]) != 0 <==> Value(whole + f) * Pow(10, scale) % Pow(10, |f|) != 0
  {
    hide Value, Pow;
    var head, tail := whole + f[..scale], f[scale..];
    assert whole + f == head + tail;
    CutDivides(head, tail);
    PowPlus(10, |tail|, scale);
    CommonFactor(Value(whole + f), Pow(10, scale), Pow(10, |tail|));
  }

  /** Zeros that are filled in. */
  lemma FillIsScaled(whole: seq<nat>, f: seq<nat>, scale: nat)
    requires scale > |f|
    ensures Value(whole + (f + Zeros(scale - |f|))) == Value(whole + f) * Pow(10, scale) / Pow(10, |f|)
    ensures Value(whole + f) * Pow(10, scale) % Pow(10, |f|) == 0
  {
    hide Value, Pow;
    var v, k := Value(whole + f), scale - |f|;
    assert whole + (f + Zeros(k)) == (whole + f) + Zeros(k);
    AppendMultiplies(whole + f, k);
    PowPlus(10, k, |f|);
    MulAssoc(v, Pow(10, k), Pow(10, |f|));
    DivExact(v * Pow(10, k), Pow(10, |f|), 0);
  }

  lemma SignificantTail(f: seq<nat>, scale: nat)
    requires scale <= |f|
    ensures Significant(f) > scale <==> Value(f[scale..]) != 0
  {
    hide Value;
    var tail := f[scale..];
    ValueIsZero(tail);
    assert forall j :: 0 <= j < |tail| ==> tail[j] == f[scale + j];
  }

  /** With a dot, the digits made for a positive scale are the scaled number, and something non-zero
      is lost exactly when the scaled number is not an integer. */
  lemma PaddedIsScaled(n: Number, scale: nat)
    requires IsDecimal(n.whole) && IsDecimal(n.fraction)
    ensures Value(n.whole + Padded(n.fraction, scale)) == Scaled(n, scale)
    ensures Significant(n.fraction) > scale
            <==> Value(n.whole + n.fraction) * Pow(10, scale) % Pow(10, |n.fraction|) != 0
  {
    hide Value, Pow, Significant;
    if scale <= |n.fraction| {
      CutIsScaled(n.whole, n.fraction, scale);
      SignificantTail(n.fraction, scale);
    } else {
      FillIsScaled(n.whole, n.fraction, scale);
    }
  }

  lemma CutKeeps(d: seq<nat>)
    requires IsDecimal(d)
    ensures Value(Cut(d)) == Value(d) <==> |d| <= MAX_DIGITS || Value(d) == 0
  {
    hide Value;
    if |d| > MAX_DIGITS {
      var head, tail := d[..MAX_DIGITS], d[MAX_DIGITS..];
      assert d == head + tail;
      ValuePlus(head, tail);
      Grows(Value(head), |tail|);
    }
  }

  /** A number that is not reported as out of range is stored as floor(|x| * 10^scale), unless the
      scale is positive and either the text has no dot, so that it is not rescaled at all, or the
      digits do not fit and are cut. */
  lemma StoredIsScaled(n: Number, precision: nat, scale: int)
    requires IsDecimal(n.whole) && IsDecimal(n.fraction) && (!n.dot ==> n.fraction == [])
    requires !OutOfRange(n, precision, scale)
    ensures Value(Stored(n, scale)) == Scaled(n, scale)
            <==> scale <= 0 || (n.dot && |n.whole| + scale <= MAX_DIGITS) || Scaled(n, scale) == 0
  {
    hide Value, Pow, Significant, Decimal;
    if scale > 0 {
      if n.dot {
        PaddedIsScaled(n, scale);
        CutKeeps(n.whole + Padded(n.fraction, scale));
      } else {
        NoFraction(n.whole, scale);
        assert n.whole + n.fraction == n.whole;
        Grows(Value(n.whole), scale);
      }
    } else {
      CutDivides(n.whole, n.fraction);
      if scale == 0 {
        NoFraction(n.whole + n.fraction, 0);
      } else {
        NegativeFits(n, scale);
      }
    }
  }

  lemma NoFraction(d: seq<nat>, scale: nat)
    ensures Value(d) * Pow(10, scale) / Pow(10, 0) == Value(d) * Pow(10, scale)
    ensures Pow(10, 0) == 1
  {
  }

  /** With a negative scale nothing is cut. */
  lemma NegativeFits(n: Number, scale: int)
    requires IsDecimal(n.whole) && scale < 0 && |n.whole| <= MAX_DIGITS
    ensures |Decimal(Value(n.whole) / Unit(scale))| <= MAX_DIGITS
  {
    hide Value, Pow, Decimal;
    ValueBound(n.whole);
    PowGrows(|n.whole|, MAX_DIGITS);
    DivShrinks(Value(n.whole), Unit(scale));
    DecimalLength(Value(n.whole) / Unit(scale), MAX_DIGITS);
  }

  lemma {:induction false} PowGrows(m: nat, n: nat)
    requires m <= n
    ensures Pow(10, m) <= Pow(10, n)
    decreases n
  {
    if m < n {
      PowGrows(m, n - 1);
    }
  }

  /** "5" with two digits after the dot comes out as 0.05. */
  lemma NoDotIsNotRescaled()
    ensures Plain("5") && Read("5") == Number(1, [5], false, [])
    ensures !OutOfRange(Read("5"), 38, 2) && Value(Stored(Read("5"), 2)) == 5 && Scaled(Read("5"), 2) == 500
  {
    assert Find("5", '.', 0) == 1;
    assert DigitsEnd("5", 0) == 1;
    assert Digits("5"[0..1]) == [5];
    assert Value([5]) == 10 * Value([]) + 5;
    assert [5] + [] == [5];
    assert Pow(10, 2) == 10 * (10 * Pow(10, 0));
  }

  const TWELVE := Number(1, [1, 2], true, [0])

  /** "12.0" with 38 digits after the dot, the largest scale there is: the 39 digits that are kept make twelve times ten
      to the 37th, a tenth of the number asked for. That one would not even fit the sixteen bytes, but the cut one
      does. */
  lemma CutIsSilent()
    ensures Plain("12.0") && Read("12.0") == TWELVE && !OutOfRange(TWELVE, 38, 38)
    ensures Value(Stored(TWELVE, 38)) == 12 * Pow(10, 37) < TWO_TO_128
    ensures Scaled(TWELVE, 38) == 12 * Pow(10, 38) >= TWO_TO_128
  {
    hide Pow, Value, Stored, Scaled, Padded, Significant, Plain, Read, TooLong;
    ReadsTwelve();
    TwelveStored();
    TwelveScaled();
    TenTo38();
    assert Pow(10, 38) == 10 * Pow(10, 37) by { PowNext(37); }
    NothingSignificant();
  }

  lemma PowNext(n: nat)
    ensures Pow(10, n + 1) == 10 * Pow(10, n)
  {
  }

  lemma ReadsTwelve()
    ensures Plain("12.0") && Read("12.0") == TWELVE
  {
    var s := "12.0";
    assert Start(s) == 0 && SkipZeros(s, 0) == 0;
    assert Find(s, '.', 0) == Find(s, '.', 1) == Find(s, '.', 2) == 2;
    assert DigitsEnd(s, 3) == DigitsEnd(s, 4) == 4;
    assert Digits(s[0..2]) == [1, 2] && Digits(s[3..4]) == [0];
  }

  lemma TwelveStored()
    ensures Value(Stored(TWELVE, 38)) == 12 * Pow(10, 37)
  {
    hide Pow, Value, Significant;
    assert [1, 2] + Padded([0], 38) == [1, 2] + Zeros(38);
    assert Cut([1, 2] + Zeros(38)) == [1, 2] + Zeros(37);
    AppendMultiplies([1, 2], 37);
    TwelveIsTwelve();
  }

  lemma TwelveScaled()
    ensures Scaled(TWELVE, 38) == 12 * Pow(10, 38)
  {
    hide Pow, Value, Significant;
    assert TWELVE.whole + Padded(TWELVE.fraction, 38) == [1, 2] + Zeros(38);
    AppendMultiplies([1, 2], 38);
    TwelveIsTwelve();
    PaddedIsScaled(TWELVE, 38);
  }

  lemma TwelveIsTwelve()
    ensures Value([1, 2]) == 12
  {
    assert Value([1]) == 10 * Value([]) + 1;
    assert [1, 2][..1] == [1];
  }

  lemma NothingSignificant()
    ensures Significant([0]) == 0 && !TooLong([1, 2], 38, 38)
  {
  }

  lemma TenTo38()
    ensures 2 * Pow(10, 38) < TWO_TO_128 <= 10 * Pow(10, 38)
  {
    assert Pow(10, 4) == 10_000;
    PowPlus(10, 4, 4);
    PowPlus(10, 8, 8);
    PowPlus(10, 16, 16);
    PowPlus(10, 32, 4);
    PowPlus(10, 36, 2);
    assert Pow(10, 2) == 100;
  }
}
