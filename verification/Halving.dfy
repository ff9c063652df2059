/** Decimal digits to bytes, by halving the digit string in place and collecting the remainders. */
module Halving {
  import opened Radix

  const MAX_NUMERIC_LEN := 16

  lemma {:induction false} SkippedZeros(d: seq<nat>, k: nat)
    requires k <= |d| && forall i :: 0 <= i < k ==> d[i] == 0
    ensures Value(d) == Value(d[k..])
  {
    ValuePlus(d[..k], d[k..]);
    assert d == d[..k] + d[k..];
    ValueIsZero(d[..k]);
  }

  lemma ValueStep(d: seq<nat>, x: nat)
    ensures Value(d + [x]) == 10 * Value(d) + x
  {
    assert (d + [x])[..|d|] == d;
  }

  lemma {:induction false} LeadingDigit(d: seq<nat>)
    requires d != [] && d[0] > 0
    ensures Value(d) > 0
  {
    ValueIsZero(d);
  }

  lemma HalvedDigits(d: seq<nat>, z: nat)
    requires z <= |d| && (forall k :: 0 <= k < z ==> d[k] == 0) && (z < |d| ==> d[z] > 0)
    ensures Value(d[z..]) == Value(d) && (z == |d| <==> Value(d) == 0)
  {
    SkippedZeros(d, z);
    if z < |d| {
      LeadingDigit(d[z..]);
    }
  }

  lemma HalvedDigit(old': nat, new': nat, dig: nat, x: nat)
    requires new' * 2 + dig == old' && dig <= 1 && x <= 9
    ensures var tv := dig * 10 + x;
            (10 * new' + tv / 2) * 2 + tv % 2 == 10 * old' + x && tv / 2 <= 9
  {
  }

  /** One pass: the digits from `sta` up to `count` are halved, leading zeros of the result are cut off. */
  method Halve(digits: array<nat>, sta: nat, count: nat) returns (next: nat, dig: nat)
    requires sta < count <= digits.Length && IsDecimal(digits[sta..count])
    modifies digits
    ensures sta <= next <= count && IsDecimal(digits[next..count])
    ensures var n := old(Value(digits[sta..count])); Value(digits[next..count]) == n / 2 && dig == n % 2
    ensures next == count <==> old(Value(digits[sta..count])) < 2
  {
    hide Value;
    next, dig := sta, 0;
    ghost var before: seq<nat>, halved: seq<nat> := digits[sta..count], [];
    NoDigits();
    for i := sta to count
      invariant sta <= next <= i && dig <= 1 && |halved| == i - sta
      invariant forall k :: i <= k < count ==> digits[k] == before[k - sta]
      invariant forall k :: sta <= k < i ==> digits[k] == halved[k - sta]
      invariant IsDecimal(halved)
      invariant forall k :: 0 <= k < next - sta ==> halved[k] == 0
      invariant next < i ==> halved[next - sta] > 0
      invariant Value(halved) * 2 + dig == Value(before[..i - sta])
    {
      assert digits[i] == before[i - sta];
      assert before[..i + 1 - sta] == before[..i - sta] + [digits[i]];
      ValueStep(before[..i - sta], digits[i]);
      HalvedDigit(Value(before[..i - sta]), Value(halved), dig, digits[i]);
      var tv := dig * 10 + digits[i];
      dig := tv % 2;
      digits[i] := tv / 2;
      if i == next && tv < 2 {
        next := next + 1;
      }
      ValueStep(halved, tv / 2);
      halved := halved + [tv / 2];
    }
    assert before[..count - sta] == before;
    HalvedDigits(halved, next - sta);
    assert halved == digits[sta..count];
    assert halved[next - sta..] == digits[next..count];
  }

  lemma NoDigits()
    ensures Value([]) == 0
  {
  }

  /** A byte goes to its place. */
  method Store(val: array<nat>, olen: nat, hval: nat)
    requires olen < val.Length && IsBytes(val[..]) && hval < 256
    modifies val
    ensures val[..] == old(val[..])[olen := hval] && IsBytes(val[..])
    ensures LittleEndian(val[..olen + 1]) == old(LittleEndian(val[..olen])) + Pow(256, olen) * hval
  {
    LittleEndianPlus(val[..olen], [hval]);
    assert LittleEndian([hval]) == hval + 256 * LittleEndian([]);
    val[olen] := hval;
    assert val[..olen + 1] == old(val[..olen]) + [hval];
  }

  ghost predicate IsBit(bit: nat) { bit in {1, 2, 4, 8, 16, 32, 64, 128} }

  lemma NextBit(bit: nat)
    requires IsBit(bit)
    ensures if bit == 128 then bit * 2 == 256 else IsBit(bit * 2) && bit * 2 < 256
  {
  }

  lemma FirstBit()
    ensures IsBit(1)
  {
  }

  /** What is stored, what is still in `hval`, and what is left of the digits make up the number. */
  ghost predicate Accounts(whole: nat, low: nat, p: nat, hval: nat, bit: nat, rest: nat) {
    whole == low + p * (hval + bit * rest)
  }

  lemma BitMoves(whole: nat, low: nat, p: nat, hval: nat, bit: nat, n: nat)
    requires Accounts(whole, low, p, hval, bit, n)
    ensures Accounts(whole, low, p, hval + bit * (n % 2), bit * 2, n / 2)
  {
    assert n == 2 * (n / 2) + n % 2;
    assert bit * n == bit * (n % 2) + (bit * 2) * (n / 2);
  }

  lemma ByteMoves(whole: nat, low: nat, p: nat, hval: nat, rest: nat)
    requires Accounts(whole, low, p, hval, 256, rest)
    ensures Accounts(whole, low + p * hval, 256 * p, 0, 1, rest)
  {
    assert p * (hval + 256 * rest) == p * hval + (256 * p) * rest;
  }

  lemma TooLarge(whole: nat, low: nat, p: nat, hval: nat, bit: nat, rest: nat)
    requires Accounts(whole, low, p, hval, bit, rest) && p == TWO_TO_128 && (hval > 0 || (rest > 0 && bit > 0))
    ensures whole >= TWO_TO_128
  {
    assert hval + bit * rest >= 1 by {
      if rest > 0 && bit > 0 { assert bit * rest >= 1; }
    }
    assert p * (hval + bit * rest) >= p;
  }

  /** The bytes from `olen` on are still zero. */
  lemma WholeNumber(val: seq<nat>, olen: nat)
    requires olen <= |val| && forall k :: olen <= k < |val| ==> val[k] == 0
    ensures LittleEndian(val) == LittleEndian(val[..olen])
  {
    LittleEndianPlus(val[..olen], val[olen..]);
    assert val == val[..olen] + val[olen..] && val[olen..] == Zeros(|val| - olen);
    LittleEndianZeros(|val| - olen);
  }

  lemma AllStored(whole: nat, low: nat, p: nat, hval: nat, bit: nat)
    requires Accounts(whole, low, p, hval, bit, 0)
    ensures whole == low + p * hval
  {
  }

  lemma NothingStored(whole: nat)
    ensures Accounts(whole, LittleEndian([]), Pow(256, 0), 0, 1, whole)
  {
  }

  lemma PowNext(n: nat)
    ensures Pow(256, n + 1) == 256 * Pow(256, n)
  {
  }

  /** A full byte is stored, and the next one begins. */
  method StoreByte(val: array<nat>, olen: nat, hval: nat, ghost whole: nat, ghost rest: nat)
    requires olen < val.Length && IsBytes(val[..]) && hval < 256
    requires Accounts(whole, LittleEndian(val[..olen]), Pow(256, olen), hval, 256, rest)
    modifies val
    ensures val[..] == old(val[..])[olen := hval] && IsBytes(val[..])
    ensures Accounts(whole, LittleEndian(val[..olen + 1]), Pow(256, olen + 1), 0, 1, rest)
  {
    hide Accounts, LittleEndian, Pow, IsBytes;
    ByteMoves(whole, LittleEndian(val[..olen]), Pow(256, olen), hval, rest);
    PowNext(olen);
    Store(val, olen, hval);
  }

  /** The bits that do not fill a byte. */
  method StoreRest(val: array<nat>, olen: nat, hval: nat, bit: nat, ghost whole: nat) returns (overflow: bool)
    requires val.Length == MAX_NUMERIC_LEN && olen <= MAX_NUMERIC_LEN && IsBytes(val[..]) && IsBit(bit) && hval < bit
    requires forall k :: olen <= k < MAX_NUMERIC_LEN ==> val[k] == 0
    requires Accounts(whole, LittleEndian(val[..olen]), Pow(256, olen), hval, bit, 0)
    modifies val
    ensures overflow <==> whole >= TWO_TO_128
    ensures !overflow ==> IsBytes(val[..]) && LittleEndian(val[..]) == whole
  {
    hide Accounts, LittleEndian, Pow, IsBit;
    ghost var n := olen;
    AllStored(whole, LittleEndian(val[..olen]), Pow(256, olen), hval, bit);
    NextBit(bit);
    Pow256To16();
    if hval != 0 {
      if olen == MAX_NUMERIC_LEN {
        TooLarge(whole, LittleEndian(val[..olen]), Pow(256, olen), hval, bit, 0);
        return true;
      }
      Store(val, olen, hval);
      n := n + 1;
    }
    WholeNumber(val[..], n);
    LittleEndianBound(val[..]);
    return false;
  }

  /** The whole loop: `val` gets the bytes of the number, or the number is reported to be too large. */
  method ToBytes(digits: array<nat>, count: nat, val: array<nat>) returns (overflow: bool)
    requires count <= digits.Length && IsDecimal(digits[..count])
    requires val.Length == MAX_NUMERIC_LEN && val[..] == Zeros(MAX_NUMERIC_LEN) && digits != val
    modifies digits, val
    ensures overflow <==> old(Value(digits[..count])) >= TWO_TO_128
    ensures !overflow ==> IsBytes(val[..]) && LittleEndian(val[..]) == old(Value(digits[..count]))
  {
    hide Value, Accounts, LittleEndian, Pow, IsBit, IsDecimal;
    FirstBit();
    ghost var whole := Value(digits[..count]);
    var hval: nat, bit: nat, sta: nat, olen: nat := 0, 1, 0, 0;
    Pow256To16();
    NoDigits();
    NothingStored(whole);
    assert digits[0..count] == digits[..count] && (count == 0 ==> digits[..count] == []);
    while sta < count
      invariant sta <= count && olen <= MAX_NUMERIC_LEN
      invariant IsDecimal(digits[sta..count])
      invariant IsBit(bit) && hval < bit
      invariant IsBytes(val[..])
      invariant forall k :: olen <= k < MAX_NUMERIC_LEN ==> val[k] == 0
      invariant Accounts(whole, LittleEndian(val[..olen]), Pow(256, olen), hval, bit, Value(digits[sta..count]))
      invariant sta == count ==> Value(digits[sta..count]) == 0
      invariant sta < count && Value(digits[sta..count]) == 0 ==> olen == 0 && bit == 1
      decreases Value(digits[sta..count]) + if sta < count then 1 else 0
    {
      ghost var n, low, p := Value(digits[sta..count]), LittleEndian(val[..olen]), Pow(256, olen);
      if olen == MAX_NUMERIC_LEN {
        TooLarge(whole, low, p, hval, bit, n);
      }
      BitMoves(whole, low, p, hval, bit, n);
      NextBit(bit);
      var dig;
      sta, dig := Halve(digits, sta, count);
      if dig > 0 {
        hval := hval + bit;      // `bit` is above every bit of hval
      }
      bit := bit * 2;
      if bit >= 256 {
        if olen >= MAX_NUMERIC_LEN {
          return true;
        }
        StoreByte(val, olen, hval, whole, n / 2);
        olen, hval, bit := olen + 1, 0, 1;
      }
    }
    overflow := StoreRest(val, olen, hval, bit, whole);
  }
}
