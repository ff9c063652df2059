/** SQL_NUMERIC_STRUCT, and its conversion from and to decimal text. */
module SqlNumerics {
  import opened Common
  import opened Radix
  import opened Halving
  import opened DecimalText
  import opened DecimalRange

  datatype Ret = OK | MADB_ERR_01S07 | MADB_ERR_22003

  const DEFAULT_PRECISION := 38
  const DIGITS_BUFFER := 100
  const INT64_LIMIT := 0x8000_0000_0000_0000
  const UINT64_LIMIT := 0x1_0000_0000_0000_0000

  class SqlNumeric {
    var precision: nat
    var scale: int
    var sign: nat                 // 1 for non-negative numbers
    const val: array<nat>

    constructor ()
      ensures fresh(this) && fresh(val) && val.Length == MAX_NUMERIC_LEN && val[..] == Zeros(MAX_NUMERIC_LEN)
    {
      precision, scale, sign := 0, 0, 1;
      val := new nat[MAX_NUMERIC_LEN](_ => 0);
    }

    method Init(precision: nat, scale: int)
      requires val.Length == MAX_NUMERIC_LEN
      modifies this`precision, this`scale, val
      ensures this.precision == precision && this.scale == scale && val[..] == Zeros(MAX_NUMERIC_LEN)
    {
      this.precision, this.scale := precision, scale;
      forall i | 0 <= i < val.Length { val[i] := 0; }
    }
  }

  function Effective(precision: nat): nat { if precision == 0 then DEFAULT_PRECISION else precision }

  /** With a negative scale the driver computes with 64-bit integers and floating point powers of ten. */
  ghost predicate FitsInt64(n: Number, precision: nat, scale: int)
    requires IsDecimal(n.whole)
  {
    scale < 0 && !TooLong(n.whole, precision, scale) ==> scale >= -18 && Value(n.whole) + Unit(scale) / 2 < INT64_LIMIT
  }

  /** May the integer part be longer than the precision? */
  method TooManyDigits(buffer: string, p: nat, count: nat, precision: nat, scale: int) returns (error: bool)
    requires p + count <= |buffer| && precision > 0 && forall i :: p <= i < p + count ==> IsDigit(buffer[i])
    ensures error == TooLong(Digits(buffer[p..p + count]), precision, scale) && (!error ==> count <= MAX_DIGITS)
  {
    ghost var whole := Digits(buffer[p..p + count]);
    assert forall i :: 0 <= i < count ==> whole[i] == DigitOf(buffer[p + i]);
    if count > MAX_DIGITS {
      return true;
    }
    if count > precision {
      if scale < 0 && precision - scale >= count {
        var i := count - precision;
        while i > 0
          invariant 0 <= i <= count - precision
          invariant forall k :: precision <= k < count - i ==> whole[k] == 0
        {
          assert whole[count - i] == DigitOf(buffer[p + count - i]);
          if buffer[p + count - i] != '0' {
            return true;
          }
          i := i - 1;
        }
      } else {
        return true;
      }
    }
    return false;
  }

  /** Counting the digits after the dot, all and without the zeros at the end. */
  method CountFraction(buffer: string, start: nat) returns (total: nat, significant: nat)
    requires start <= |buffer|
    ensures start + total == DigitsEnd(buffer, start)
    ensures significant == Significant(Digits(buffer[start..DigitsEnd(buffer, start)]))
  {
    var p := start;
    total, significant := 0, 0;
    ghost var end := DigitsEnd(buffer, start);
    ghost var fraction := Digits(buffer[start..end]);
    while p < |buffer|
      invariant start <= p <= end && total == p - start
      invariant DigitsEnd(buffer, p) == end
      invariant significant <= total && (significant > 0 ==> fraction[significant - 1] != 0)
      invariant forall k :: significant <= k < total ==> fraction[k] == 0
    {
      if !IsDigit(buffer[p]) {
        break;
      }
      total := total + 1;
      assert fraction[p - start] == DigitOf(buffer[p]);
      if buffer[p] != '0' {
        significant := total;
      }
      p := p + 1;
    }
    SignificantIs(fraction, significant);
  }

  lemma SignificantIs(f: seq<nat>, k: nat)
    requires k <= |f| && (k > 0 ==> f[k - 1] != 0) && forall j :: k <= j < |f| ==> f[j] == 0
    ensures Significant(f) == k
  {
  }

  method CopyDigits(s: string, digits: array<nat>, at: nat)
    requires at + |s| <= digits.Length && forall i :: 0 <= i < |s| ==> IsDigit(s[i])
    modifies digits
    ensures digits[..at] == old(digits[..at]) && digits[at..at + |s|] == Digits(s)
  {
    forall i | 0 <= i < |s| { digits[at + i] := DigitOf(s[i]); }
    assert forall k :: at <= k < at + |s| ==> digits[k] == Digits(s)[k - at];
  }

  lemma FilledUp(f: seq<nat>, significant: nat, scale: nat)
    requires IsDecimal(f) && significant == Significant(f)
    ensures significant > scale ==> f[..scale] == Padded(f, scale)
    ensures significant <= scale ==> f[..significant] + Zeros(scale - significant) == Padded(f, scale)
  {
  }

  lemma DigitsOfPrefix(s: string, k: nat)
    requires k <= |s| && forall i :: 0 <= i < |s| ==> IsDigit(s[i])
    ensures Digits(s[..k]) == Digits(s)[..k]
  {
  }

  /** The fraction, cut or filled up to `scale` digits, behind the integer part. */
  method AppendFraction(digits: array<nat>, count: nat, fraction: string, significant: nat, scale: nat)
    requires forall i :: 0 <= i < |fraction| ==> IsDigit(fraction[i])
    requires count + scale <= digits.Length && significant == Significant(Digits(fraction))
    modifies digits
    ensures digits[..count + scale] == old(digits[..count]) + Padded(Digits(fraction), scale)
  {
    hide Significant, Digits, Padded;
    FilledUp(Digits(fraction), significant, scale);
    var copied := if significant > scale then scale else significant;
    DigitsOfPrefix(fraction, copied);
    CopyDigits(fraction[..copied], digits, count);
    assert digits[..count + copied] == digits[..count] + digits[count..count + copied];
    if significant <= scale {
      var i := count + significant;
      ghost var head := digits[..i];
      while i < count + scale
        invariant count + significant <= i <= count + scale && digits[..count + significant] == head
        invariant forall k :: count + significant <= k < i ==> digits[k] == 0
      {
        digits[i] := 0;
        i := i + 1;
      }
      assert digits[..count + scale] == head + Zeros(scale - significant);
    }
  }

  /** The digits before a negative scale is applied. */
  function Kept(n: Number, scale: int): seq<nat>
    requires IsDecimal(n.whole) && IsDecimal(n.fraction)
  {
    if n.dot && scale > 0 then n.whole + Padded(n.fraction, scale) else n.whole
  }

  /** Collecting the digits of the integer part and of the fraction. */
  method Collect(buffer: string, dot: nat, digits: array<nat>, whole: nat, precision: nat, scale: int, ghost n: Number)
    returns (ret: Ret, count: nat)
    requires dot <= |buffer| && whole <= MAX_DIGITS && scale <= DIGITS_BUFFER - MAX_DIGITS
             && digits.Length == DIGITS_BUFFER
    requires IsDecimal(n.whole) && IsDecimal(n.fraction) && |n.whole| == whole && digits[..whole] == n.whole
    requires n.dot <==> dot < |buffer|
    requires n.dot ==> n.fraction == Digits(buffer[dot + 1..DigitsEnd(buffer, dot + 1)])
    modifies digits
    ensures ret == MADB_ERR_22003 <==>
              n.dot && scale > 0 && whole + Significant(n.fraction) > precision && Significant(n.fraction) <= scale
    ensures ret == MADB_ERR_01S07 <==> Truncated(n, scale)
    ensures ret != MADB_ERR_22003 ==>
              count <= DIGITS_BUFFER && digits[..count] == Kept(n, scale) && (scale < 0 ==> count == whole)
  {
    hide Significant, Digits, Padded;
    ret, count := OK, whole;
    if dot < |buffer| && scale > 0 {
      var total, significant := CountFraction(buffer, dot + 1);
      if count + significant > precision && significant <= scale {
        return MADB_ERR_22003, count;
      }
      if significant > scale {
        ret := MADB_ERR_01S07;
      }
      AppendFraction(digits, count, buffer[dot + 1..dot + 1 + total], significant, scale);
      count := count + scale;
    }
  }

  lemma Rounds(v: nat, r: nat)
    requires r > 1
    ensures (v + r / 2) / r * r == v <==> v % r == 0
  {
    var q, m := v / r, v % r;
    assert v == q * r + m;
    if m + r / 2 < r {
      DivExact(q, r, m + r / 2);
    } else {
      assert v + r / 2 == (q + 1) * r + (m + r / 2 - r);
      DivExact(q + 1, r, m + r / 2 - r);
      assert (q + 1) * r == q * r + r;
    }
  }

  /** A negative scale: the number has to be a multiple of the power of ten, and is divided by it. */
  method DropZeros(digits: array<nat>, count: nat, precision: nat, scale: int) returns (error: bool, left: nat)
    requires scale < 0 && count <= MAX_DIGITS < digits.Length && IsDecimal(digits[..count])
    modifies digits
    ensures var v := old(Value(digits[..count]));
            && (error <==> v % Unit(scale) != 0 || |Decimal(v / Unit(scale))| > precision)
            && (!error ==> left <= MAX_DIGITS && digits[..left] == Decimal(v / Unit(scale)))
  {
    hide Value, Pow, Decimal;
    var v, roundNumber := Value(digits[..count]), Pow(10, -scale);
    assert roundNumber > 1 by {
      Grows(1, -scale);
    }
    Rounds(v, roundNumber);
    if (v + roundNumber / 2) / roundNumber * roundNumber != v {
      return true, 0;
    }
    var printed := Decimal(v / roundNumber);
    NegativeFits(Number(0, digits[..count], false, []), scale);
    forall i | 0 <= i < |printed| { digits[i] := printed[i]; }
    assert digits[..|printed|] == printed;
    return |printed| > precision, |printed|;
  }

  /** The collected digits, rescaled and cut, become bytes. */
  method StoreDigits(digits: array<nat>, length: nat, precision: nat, scale: int, val: array<nat>, ghost n: Number)
    returns (error: bool)
    requires IsDecimal(n.whole) && IsDecimal(n.fraction)
    requires length <= digits.Length == DIGITS_BUFFER && digits[..length] == Kept(n, scale)
    requires scale < 0 ==> length == |n.whole| <= MAX_DIGITS
    requires val.Length == MAX_NUMERIC_LEN && val[..] == Zeros(MAX_NUMERIC_LEN) && digits != val
    modifies digits, val
    ensures error <==>
              (scale < 0 && (Value(n.whole) % Unit(scale) != 0 || |Decimal(Value(n.whole) / Unit(scale))| > precision))
              || Value(Stored(n, scale)) >= TWO_TO_128
    ensures !error ==> IsBytes(val[..]) && LittleEndian(val[..]) == Value(Stored(n, scale))
  {
    hide Value, Decimal, LittleEndian, Pow, Padded;
    var count := length;
    if scale < 0 {
      error, count := DropZeros(digits, count, precision, scale);
      if error {
        return;
      }
    }
    if count > MAX_DIGITS {
      assert digits[..MAX_DIGITS] == digits[..count][..MAX_DIGITS];
      count := MAX_DIGITS;
    }
    assert digits[..count] == Stored(n, scale);
    error := ToBytes(digits, count, val);
  }

  /** What the stored number and the return code have to be. */
  ghost predicate Converted(n: Number, precision: nat, scale: int, val: array<nat>, ret: Ret)
    requires IsDecimal(n.whole) && IsDecimal(n.fraction)
    reads val
  {
    && (ret == MADB_ERR_22003 <==> OutOfRange(n, precision, scale))
    && (ret == MADB_ERR_01S07 <==> ret != MADB_ERR_22003 && Truncated(n, scale))
    && (ret != MADB_ERR_22003 ==> IsBytes(val[..]) && LittleEndian(val[..]) == Value(Stored(n, scale)))
  }

  /** The text from its first significant character on. */
  method ConvertDigits(buffer: string, p: nat, precision: nat, scale: int, val: array<nat>) returns (ret: Ret)
    requires Plain(buffer) && p == SkipZeros(buffer, Start(buffer)) < |buffer| && precision > 0
    requires scale <= DIGITS_BUFFER - MAX_DIGITS && FitsInt64(Read(buffer), precision, scale)
    requires val.Length == MAX_NUMERIC_LEN && val[..] == Zeros(MAX_NUMERIC_LEN)
    modifies val
    ensures Converted(Read(buffer), precision, scale, val, ret)
  {
    hide Value, Decimal, Significant, LittleEndian, TooLong, Pow, Digits, Padded;
    ghost var n := Read(buffer);
    var dot := Find(buffer, '.', p);
    var count := (if dot == |buffer| then DigitsEnd(buffer, p) else dot) - p;
    assert n.whole == Digits(buffer[p..p + count]);
    var error := TooManyDigits(buffer, p, count, precision, scale);
    if error {
      return MADB_ERR_22003;
    }
    var digits := new nat[DIGITS_BUFFER];
    CopyDigits(buffer[p..p + count], digits, 0);
    assert digits[..count] == digits[0..0 + |buffer[p..p + count]|];
    ret, count := Collect(buffer, dot, digits, count, precision, scale, n);
    if ret != MADB_ERR_22003 {
      error := StoreDigits(digits, count, precision, scale, val, n);
      if error {
        ret := MADB_ERR_22003;
      }
    }
  }

  /** The text may have white space around it. */
  method CharToSQLNumeric(text: string, precision: nat, scale: int, number: SqlNumeric) returns (ret: Ret)
    requires number.val.Length == MAX_NUMERIC_LEN && Plain(Trimmed(text))
    requires scale <= DIGITS_BUFFER - MAX_DIGITS && FitsInt64(Read(Trimmed(text)), Effective(precision), scale)
    modifies number, number.val
    ensures number.sign == Read(Trimmed(text)).sign && number.scale == scale
    ensures Converted(Read(Trimmed(text)), Effective(precision), scale, number.val, ret)
    ensures ret == MADB_ERR_22003 <==> BeyondRange(Read(Trimmed(text)), Effective(precision), scale)
    ensures ret == MADB_ERR_01S07 <==> ret != MADB_ERR_22003 && scale > 0 && Loses(Read(Trimmed(text)), scale)
    ensures ret != MADB_ERR_22003 && scale >= 0 ==> Value(Read(Trimmed(text)).whole) < Pow(10, Effective(precision))
    ensures ret != MADB_ERR_22003 && scale < 0 ==> LittleEndian(number.val[..]) < Pow(10, Effective(precision))
  {
    hide Trimmed, BeyondRange, OutOfRange, Loses, Truncated;
    var buffer := Trimmed(text);
    TruncatedByValue(Read(buffer), scale);
    RangeByValue(Read(buffer), Effective(precision), scale);
    if !BeyondRange(Read(buffer), Effective(precision), scale) {
      InRange(Read(buffer), Effective(precision), scale);
    }
    ret := ConvertText(buffer, precision, scale, number);
  }

  method ConvertText(buffer: string, precision: nat, scale: int, number: SqlNumeric) returns (ret: Ret)
    requires number.val.Length == MAX_NUMERIC_LEN && Plain(buffer)
    requires scale <= DIGITS_BUFFER - MAX_DIGITS && FitsInt64(Read(buffer), Effective(precision), scale)
    modifies number, number.val
    ensures number.sign == Read(buffer).sign && number.scale == scale
    ensures Converted(Read(buffer), Effective(precision), scale, number.val, ret)
  {
    var p := 0;
    number.Init(precision, scale);
    number.sign := if p < |buffer| && buffer[p] == '-' then 0 else 1;
    if number.sign == 0 {
      p := p + 1;
    }
    if p == |buffer| {
      NothingToStore(buffer, precision, scale);
      return OK;
    }
    if number.precision == 0 {
      number.precision := DEFAULT_PRECISION;
    }
    while p < |buffer| && buffer[p] == '0'
      invariant Start(buffer) <= p <= |buffer| && SkipZeros(buffer, p) == SkipZeros(buffer, Start(buffer))
    {
      p := p + 1;
    }
    if p == |buffer| {
      NothingToStore(buffer, precision, scale);
      return OK;
    }
    ret := ConvertDigits(buffer, p, number.precision, scale, number.val);
  }

  lemma InRange(n: Number, precision: nat, scale: int)
    requires IsDecimal(n.whole) && IsDecimal(n.fraction) && (n.whole != [] ==> n.whole[0] > 0) && precision > 0
    requires !BeyondRange(n, precision, scale)
    ensures scale >= 0 ==> Value(n.whole) < Pow(10, precision)
    ensures scale < 0 ==> Value(Stored(n, scale)) < Pow(10, precision)
  {
    hide Value, Pow, Stored, FractionTooLong, OutOfRange;
    if scale < 0 {
      NegativeRange(n, precision, scale);
    }
  }

  lemma NothingToStore(s: string, precision: nat, scale: int)
    requires SkipZeros(s, Start(s)) == |s|
    ensures Plain(s) && Read(s) == Number(1 - Start(s), [], false, [])
    ensures !OutOfRange(Read(s), Effective(precision), scale) && !Truncated(Read(s), scale)
    ensures Value(Stored(Read(s), scale)) == 0 == LittleEndian(Zeros(MAX_NUMERIC_LEN))
  {
    LittleEndianZeros(MAX_NUMERIC_LEN);
    assert Value([]) == 0;
    if scale < 0 {
      DivExact(0, Unit(scale), 0);
      assert Decimal(0) == [0];
    }
  }
}
