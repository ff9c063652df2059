/** Decimal digits, most significant first, and bytes, least significant first. */
module Radix {

  function Pow(b: nat, n: nat): (p: nat)
    ensures b > 0 ==> p > 0
  {
    if n == 0 then 1 else b * Pow(b, n - 1)
  }

  /** The number a digit string stands for. */
  function Value(digits: seq<nat>): nat {
    if digits == [] then 0 else 10 * Value(digits[..|digits| - 1]) + digits[|digits| - 1]
  }

  ghost predicate IsDecimal(digits: seq<nat>) { forall i :: 0 <= i < |digits| ==> digits[i] <= 9 }

  /** The number a little-endian byte string stands for. */
  function LittleEndian(bytes: seq<nat>): nat {
    if bytes == [] then 0 else bytes[0] + 256 * LittleEndian(bytes[1..])
  }

  ghost predicate IsBytes(bytes: seq<nat>) { forall i :: 0 <= i < |bytes| ==> bytes[i] < 256 }

  function Zeros(n: nat): (z: seq<nat>)
    ensures |z| == n && forall i :: 0 <= i < n ==> z[i] == 0
  {
    seq(n, _ => 0)
  }

  lemma MulAssoc(x: int, y: int, z: int)
    ensures x * (y * z) == (x * y) * z
  {
  }

  lemma Multiple(p: int, k: int)
    requires p > 0
    ensures k >= 1 ==> p * k >= p
    ensures k <= -1 ==> p * k <= -p
  {
    if k >= 1 {
      assert p * k == p + p * (k - 1);
    } else if k <= -1 {
      assert p * k == -p - p * (-1 - k);
    }
  }

  /** Division undoes multiplication. */
  lemma DivExact(q: nat, p: nat, r: nat)
    requires r < p
    ensures (q * p + r) / p == q && (q * p + r) % p == r
  {
    var d, m := (q * p + r) / p, (q * p + r) % p;
    assert q * p + r == d * p + m;
    assert p * (d - q) == r - m;
    Multiple(p, d - q);
  }

  lemma QuotientLeast(q: nat, p: nat, r: nat)
    requires p > 0
    ensures q <= q * p + r
  {
    MulAssoc(q, 1, p);
    assert q * p == q + q * (p - 1);
  }

  lemma DivShrinks(x: nat, p: nat)
    requires p > 0
    ensures x / p <= x
  {
    var d, m := x / p, x % p;
    assert x == d * p + m;
    QuotientLeast(d, p, m);
  }

  lemma {:induction false} PowPlus(b: nat, m: nat, n: nat)
    ensures Pow(b, m + n) == Pow(b, m) * Pow(b, n)
  {
    if m > 0 {
      PowPlus(b, m - 1, n);
      MulAssoc(b, Pow(b, m - 1), Pow(b, n));
    }
  }

  lemma Shift(x: int, p: int, v: int)
    ensures 10 * (x * p + v) == x * (10 * p) + 10 * v
  {
    MulAssoc(10, x, p);
    MulAssoc(x, 10, p);
  }

  lemma {:induction false} ValuePlus(a: seq<nat>, b: seq<nat>)
    ensures Value(a + b) == Value(a) * Pow(10, |b|) + Value(b)
  {
    if b == [] {
      assert a + b == a;
    } else {
      var init := b[..|b| - 1];
      ValuePlus(a, init);
      assert (a + b)[..|a + b| - 1] == a + init;
      Shift(Value(a), Pow(10, |init|), Value(init));
    }
  }

  lemma {:induction false} ValueZeros(n: nat)
    ensures Value(Zeros(n)) == 0
  {
    if n > 0 {
      assert Zeros(n)[..n - 1] == Zeros(n - 1);
      ValueZeros(n - 1);
    }
  }

  lemma {:induction false} ValueBound(d: seq<nat>)
    requires IsDecimal(d)
    ensures Value(d) < Pow(10, |d|)
  {
    if d != [] {
      ValueBound(d[..|d| - 1]);
    }
  }

  lemma {:induction false} ValueIsZero(d: seq<nat>)
    ensures Value(d) == 0 <==> forall i :: 0 <= i < |d| ==> d[i] == 0
  {
    if d != [] {
      ValueIsZero(d[..|d| - 1]);
    }
  }

  /** The decimal representation, without leading zeros. */
  function Decimal(n: nat): (d: seq<nat>)
    ensures IsDecimal(d) && Value(d) == n && d != [] && (d[0] == 0 ==> n == 0 && d == [0])
  {
    if n < 10 then
      var d := [n];
      assert d[..0] == [];
      d
    else
      var init := Decimal(n / 10);
      var d := init + [n % 10];
      assert d[..|d| - 1] == init;
      d
  }

  lemma {:induction false} LittleEndianPlus(a: seq<nat>, b: seq<nat>)
    ensures LittleEndian(a + b) == LittleEndian(a) + Pow(256, |a|) * LittleEndian(b)
  {
    if a == [] {
      assert a + b == b;
    } else {
      assert (a + b)[1..] == a[1..] + b;
      LittleEndianPlus(a[1..], b);
      MulAssoc(256, Pow(256, |a[1..]|), LittleEndian(b));
    }
  }

  lemma {:induction false} LittleEndianZeros(n: nat)
    ensures LittleEndian(Zeros(n)) == 0
  {
    if n > 0 {
      assert Zeros(n)[1..] == Zeros(n - 1);
      LittleEndianZeros(n - 1);
    }
  }

  lemma {:induction false} LittleEndianBound(a: seq<nat>)
    requires IsBytes(a)
    ensures LittleEndian(a) < Pow(256, |a|)
  {
    if a != [] {
      LittleEndianBound(a[1..]);
    }
  }

  /** Bytes are determined by the number and their count. */
  lemma {:induction false} LittleEndianUnique(a: seq<nat>, b: seq<nat>)
    requires IsBytes(a) && IsBytes(b) && |a| == |b| && LittleEndian(a) == LittleEndian(b)
    ensures a == b
  {
    if a != [] {
      var x, y := LittleEndian(a[1..]), LittleEndian(b[1..]);
      assert a[0] - b[0] == 256 * (y - x);
      LittleEndianUnique(a[1..], b[1..]);
      assert a == [a[0]] + a[1..] && b == [b[0]] + b[1..];
    }
  }

  const TWO_TO_128 := 0x1_0000_0000_0000_0000_0000_0000_0000_0000

  lemma Pow256To16()
    ensures Pow(256, 16) == TWO_TO_128
  {
    assert Pow(256, 4) == 0x1_0000_0000;
    PowPlus(256, 4, 4);
    PowPlus(256, 8, 8);
  }

  lemma {:induction false} DecimalLength(n: nat, k: nat)
    requires n < Pow(10, k) && k > 0
    ensures |Decimal(n)| <= k
  {
    if n >= 10 {
      assert Pow(10, k) == 10 * Pow(10, k - 1);
      if k > 1 {
        DecimalLength(n / 10, k - 1);
      }
    }
  }
}
