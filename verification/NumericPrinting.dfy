/** SQL_NUMERIC_STRUCT to text for scales that need no dot, and back again. */
module NumericPrinting {
  import opened Common
  import opened Radix
  import opened Halving
  import opened DecimalText
  import opened SqlNumerics

  const CHARSIZE_FOR_NUMERIC := 80

  function Sign(sign: nat): string { if sign != 0 then "" else "-" }

  /** The text of sign * n * 10^k. */
  function Printed(sign: nat, n: nat, k: nat): string {
    Sign(sign) + Text(Decimal(n)) + Text(Zeros(k))
  }

  lemma LowBytes(val: seq<nat>, i: nat)
    requires IsBytes(val) && i < |val|
    ensures LittleEndian(val[..i + 1]) == LittleEndian(val[..i]) + Pow(256, i) * val[i]
    ensures LittleEndian(val[..i]) < Pow(256, i)
  {
    LittleEndianPlus(val[..i], [val[i]]);
    assert val[..i + 1] == val[..i] + [val[i]];
    assert LittleEndian([val[i]]) == val[i] + 256 * LittleEndian([]);
    LittleEndianBound(val[..i]);
  }

  lemma Pow256To8()
    ensures Pow(256, 8) == UINT64_LIMIT
    ensures forall i :: 0 <= i < 8 ==> Pow(256, i) < UINT64_LIMIT
  {
    assert Pow(256, 4) == 0x1_0000_0000;
    PowPlus(256, 4, 4);
    assert Pow(256, 5) == 256 * Pow(256, 4) && Pow(256, 6) == 256 * Pow(256, 5) && Pow(256, 7) == 256 * Pow(256, 6);
  }

  /** A byte beyond the eighth makes the number too large, and nothing else does. */
  lemma HighBytes(val: seq<nat>)
    requires IsBytes(val) && |val| == MAX_NUMERIC_LEN
    ensures LittleEndian(val) < UINT64_LIMIT <==> forall i :: 8 <= i < |val| ==> val[i] == 0
    ensures LittleEndian(val) < UINT64_LIMIT ==> LittleEndian(val) == LittleEndian(val[..8])
  {
    hide LittleEndian, Pow;
    Pow256To8();
    LittleEndianPlus(val[..8], val[8..]);
    LittleEndianBound(val[..8]);
    Multiple(Pow(256, 8), LittleEndian(val[8..]));
    assert val == val[..8] + val[8..];
    ZeroBytes(val[8..]);
    assert forall i :: 8 <= i < |val| ==> val[i] == val[8..][i - 8];
  }

  lemma {:induction false} ZeroBytes(a: seq<nat>)
    ensures LittleEndian(a) == 0 <==> forall i :: 0 <= i < |a| ==> a[i] == 0
  {
    if a != [] {
      ZeroBytes(a[1..]);
    }
  }

  lemma ByteAdded(low: nat, p: nat, byte: nat)
    requires low < p && byte < 256 && 256 * p <= UINT64_LIMIT
    ensures low + byte * p < UINT64_LIMIT && byte * p == p * byte
  {
    assert byte * p <= 255 * p by {
      assert 255 * p == byte * p + (255 - byte) * p;
    }
    assert byte * p == p * byte;
  }

  method Accumulate(val: array<nat>) returns (fits: bool, numerator: nat)
    requires val.Length == MAX_NUMERIC_LEN && IsBytes(val[..])
    ensures fits <==> LittleEndian(val[..]) < UINT64_LIMIT
    ensures fits ==> numerator == LittleEndian(val[..])
  {
    hide LittleEndian, Pow;
    var byteDenominator := 1;
    numerator := 0;
    HighBytes(val[..]);
    Pow256To8();
    First(val[..]);
    for i := 0 to MAX_NUMERIC_LEN
      invariant (forall k :: 8 <= k < i ==> val[k] == 0) && numerator < UINT64_LIMIT
      invariant numerator == LittleEndian(val[..][..if i <= 8 then i else 8])
      invariant byteDenominator == if i < 8 then Pow(256, i) else 0
    {
      if i > 7 && val[i] != 0 {
        return false, 0;
      }
      if i < 8 {
        LowBytes(val[..], i);
        PowStep(i);
        ByteAdded(numerator, byteDenominator, val[i]);
      }
      numerator := (numerator + val[i] * byteDenominator) % UINT64_LIMIT;
      byteDenominator := byteDenominator * 256 % UINT64_LIMIT;
    }
    return true, numerator;
  }

  lemma First(val: seq<nat>)
    ensures LittleEndian(val[..0]) == 0 && Pow(256, 0) == 1
  {
  }

  lemma PowStep(i: nat)
    requires i < 8
    ensures Pow(256, i + 1) == 256 * Pow(256, i) <= UINT64_LIMIT && (i < 7 ==> Pow(256, i + 1) < UINT64_LIMIT)
  {
    Pow256To8();
  }

  method ConvertNumericToChar(number: SqlNumeric) returns (buffer: string, length: nat, error: Ret)
    requires number.val.Length == MAX_NUMERIC_LEN && IsBytes(number.val[..])
    requires -58 <= number.scale <= 0      // sign, 20 digits, the zeros and the end mark fit the buffer
    ensures error == MADB_ERR_22003 <==>
              LittleEndian(number.val[..]) >= UINT64_LIMIT || |Decimal(LittleEndian(number.val[..]))| > number.precision
    ensures error != MADB_ERR_22003 ==>
              && error == OK && length == |buffer| < CHARSIZE_FOR_NUMERIC
              && buffer == Printed(number.sign, LittleEndian(number.val[..]), -number.scale)
  {
    hide LittleEndian, Decimal, Pow;
    var fits, numerator := Accumulate(number.val);
    if !fits {
      return "", 0, MADB_ERR_22003;
    }
    var digits := Decimal(numerator);
    PowTen20();
    DecimalLength(numerator, 20);
    buffer := Sign(number.sign) + Text(digits);
    length := |buffer| - if number.sign != 0 then 0 else 1;
    if length > number.precision {
      return buffer, |buffer|, MADB_ERR_22003;
    }
    ghost var head := buffer;
    for i := 0 to -number.scale
      invariant buffer == head + Text(Zeros(i))
    {
      buffer := buffer + "0";
      assert Text(Zeros(i + 1)) == Text(Zeros(i)) + "0";
    }
    return buffer, |buffer|, OK;
  }

  lemma PowTen20()
    ensures Pow(10, 20) == 100_000_000_000_000_000_000
  {
    assert Pow(10, 5) == 100_000;
    PowPlus(10, 5, 5);
    PowPlus(10, 10, 10);
  }

  /** Within the precision, and within 64 bits where the driver computes with those, the printed text is
      read as the number it was printed from. */
  lemma PrintedReadsBack(sign: nat, n: nat, scale: int, precision: nat)
    requires sign <= 1 && n < UINT64_LIMIT && |Decimal(n)| <= precision && -18 <= scale <= 0
    requires scale < 0 ==> n * Unit(scale) + Unit(scale) / 2 < INT64_LIMIT
    ensures var s := Printed(sign, n, -scale);
            && Plain(s) && Read(s).sign == sign && FitsInt64(Read(s), precision, scale)
            && !OutOfRange(Read(s), precision, scale) && !Truncated(Read(s), scale)
            && Value(Stored(Read(s), scale)) == n
  {
    hide Value, Pow, OutOfRange, Stored, Read, Start, Decimal, Printed, Truncated;
    PowPositive(-scale);
    if n == 0 {
      PrintedZero(sign, -scale);
      NothingToStore(Printed(sign, 0, -scale), precision, scale);
    } else {
      PrintedDigits(sign, n, -scale);
      ReadsDigits(Printed(sign, n, -scale), Decimal(n) + Zeros(-scale));
      PrintedInRange(sign, n, scale, precision);
      NotTruncated(Read(Printed(sign, n, -scale)), scale);
    }
  }

  lemma NotTruncated(n: Number, scale: int)
    requires scale <= 0
    ensures !Truncated(n, scale)
  {
  }

  lemma PrintedZero(sign: nat, k: nat)
    requires sign <= 1
    ensures var s := Printed(sign, 0, k); SkipZeros(s, Start(s)) == |s| && Start(s) == 1 - sign
  {
    var s, d := Printed(sign, 0, k), Decimal(0) + Zeros(k);
    assert Decimal(0) == [0] && forall i :: 0 <= i < |d| ==> d[i] == 0;
    assert s[|Sign(sign)|..] == Text(d);
    assert forall i :: Start(s) <= i < |s| ==> s[i] == s[Start(s)..][i - Start(s)] == '0';
  }

  lemma PrintedDigits(sign: nat, n: nat, k: nat)
    requires sign <= 1 && n > 0
    ensures var s, d := Printed(sign, n, k), Decimal(n) + Zeros(k);
            Start(s) == 1 - sign <= |s| && s[Start(s)..] == Text(d) && IsDecimal(d) && d != [] && d[0] > 0
  {
    hide Decimal, Value;
    var s, d, z := Printed(sign, n, k), Decimal(n), Zeros(k);
    assert Text(d) + Text(z) == Text(d + z);
    assert s == Sign(sign) + Text(d + z);
    assert Text(d + z)[0] != '-';
  }

  lemma PrintedInRange(sign: nat, n: nat, scale: int, precision: nat)
    requires 0 < n < UINT64_LIMIT && |Decimal(n)| <= precision && -18 <= scale <= 0
    ensures var m := Number(sign, Decimal(n) + Zeros(-scale), false, []);
            !OutOfRange(m, precision, scale) && Value(Stored(m, scale)) == n
    ensures Value(Decimal(n) + Zeros(-scale)) == n * Pow(10, -scale)
  {
    hide Value, Pow;
    var k := -scale;
    AppendMultiplies(Decimal(n), k);
    PowTen20();
    DecimalLength(n, 20);
    PowPositive(k);
    if k > 0 {
      DivExact(n, Pow(10, k), 0);
    } else {
      TimesOne(n);
    }
  }

  lemma PowPositive(k: nat)
    ensures Pow(10, k) > 0 && Value([]) == 0
  {
  }

  lemma TimesOne(n: nat)
    ensures n * Pow(10, 0) == n
  {
  }

  lemma ReadsDigits(s: string, d: seq<nat>)
    requires IsDecimal(d) && d != [] && d[0] > 0 && Start(s) <= |s| && s[Start(s)..] == Text(d)
    ensures Plain(s) && Read(s) == Number(1 - Start(s), d, false, [])
  {
    hide Plain, Read, Text, Start, Digits, IsDecimal;
    var p := Start(s);
    DigitsThere(s, p, d);
    StartIs(s);
    ReadsWhole(s, 1 - p, p, |s|);
  }

  lemma StartIs(s: string)
    ensures Start(s) <= 1 && (Start(s) == 1 <==> s != "" && s[0] == '-')
  {
  }

  lemma DigitsThere(s: string, p: nat, d: seq<nat>)
    requires IsDecimal(d) && d != [] && d[0] > 0 && p <= |s| && s[p..] == Text(d)
    ensures p < |s| && s[p] != '0' && forall i :: p <= i < |s| ==> IsDigit(s[i]) && s[i] != '.'
    ensures Digits(s[p..|s|]) == d
  {
    assert forall i :: p <= i < |s| ==> s[i] == s[p..][i - p] == CharOf(d[i - p]);
    assert s[p] == CharOf(d[0]);
    assert s[p..|s|] == Text(d);
  }

  lemma PrintedIsTrimmed(sign: nat, n: nat, k: nat)
    ensures Trimmed(Printed(sign, n, k)) == Printed(sign, n, k)
  {
    hide Decimal;
    var s := Printed(sign, n, k);
    assert s[|s| - 1] == if k > 0 then Text(Zeros(k))[k - 1] else Text(Decimal(n))[|Decimal(n)| - 1];
    assert s[0] == if sign != 0 then Text(Decimal(n))[0] else '-';
  }

  /** There and back: the same sign, scale and bytes. */
  method RoundTrip(number: SqlNumeric, back: SqlNumeric) returns (there: Ret, ret: Ret)
    requires number.val.Length == back.val.Length == MAX_NUMERIC_LEN && number.val != back.val && number != back
    requires IsBytes(number.val[..]) && number.sign <= 1 && -18 <= number.scale <= 0
    requires number.scale < 0 ==>
               LittleEndian(number.val[..]) * Unit(number.scale) + Unit(number.scale) / 2 < INT64_LIMIT
    modifies back, back.val
    ensures there == OK <==>
              LittleEndian(number.val[..]) < UINT64_LIMIT && |Decimal(LittleEndian(number.val[..]))| <= number.precision
    ensures there == OK ==>
              ret == OK && back.sign == number.sign && back.scale == number.scale && back.val[..] == number.val[..]
  {
    hide LittleEndian, Decimal, Value, OutOfRange, Stored, Read, Plain, FitsInt64, Truncated, Printed, Trimmed;
    var text, length;
    text, length, there := ConvertNumericToChar(number);
    if there == OK {
      PrintedReadsBack(number.sign, LittleEndian(number.val[..]), number.scale, number.precision);
      PrintedIsTrimmed(number.sign, LittleEndian(number.val[..]), -number.scale);
      ret := CharToSQLNumeric(text, number.precision, number.scale, back);
      LittleEndianUnique(back.val[..], number.val[..]);
    } else {
      ret := there;
    }
  }
}
