/** Bytes, bit sequences and the unsigned-integer bit operations used by the
    DEFLATE bit buffer.  Bits are listed least significant first, the order in
    which a DEFLATE stream packs them (section 3.1.1 of RFC 1951). */
module Bits {

  type Byte = b: nat | b < 256

  const WORD := 0x1_0000_0000

  function Pow2(n: nat): (r: nat)
    ensures r >= 1
  {
    if n == 0 then 1 else 2 * Pow2(n - 1)
  }

  lemma {:induction false} Pow2Add(a: nat, b: nat)
    ensures Pow2(a + b) == Pow2(a) * Pow2(b)
  {
    if a > 0 {
      Pow2Add(a - 1, b);
    }
  }

  lemma {:induction false} Pow2Monotone(a: nat, b: nat)
    requires a <= b
    ensures Pow2(a) <= Pow2(b)
  {
    if a < b {
      Pow2Monotone(a, b - 1);
    }
  }

  /** The n low bits of v, least significant first. */
  function LowBits(v: nat, n: nat): (bits: seq<bool>)
    ensures |bits| == n
  {
    if n == 0 then [] else [v % 2 == 1] + LowBits(v / 2, n - 1)
  }

  /** The number whose bits, least significant first, are given. */
  function Number(bits: seq<bool>): (v: nat)
    ensures v < Pow2(|bits|)
  {
    if bits == [] then 0 else (if bits[0] then 1 else 0) + 2 * Number(bits[1..])
  }

  function Reverse(bits: seq<bool>): (r: seq<bool>)
    ensures |r| == |bits|
  {
    if bits == [] then [] else Reverse(bits[1..]) + [bits[0]]
  }

  /** Bitwise or of two unsigned integers. */
  function BitOr(a: nat, b: nat): nat
    decreases a + b
  {
    if a == 0 then b
    else if b == 0 then a
    else 2 * BitOr(a / 2, b / 2) + (if a % 2 == 1 || b % 2 == 1 then 1 else 0)
  }

  /** The bits of a byte string, in stream order. */
  function BytesToBits(bytes: seq<Byte>): (bits: seq<bool>)
    ensures |bits| == 8 * |bytes|
  {
    if bytes == [] then [] else LowBits(bytes[0], 8) + BytesToBits(bytes[1..])
  }

  lemma {:induction false} NumberOfLowBits(v: nat, n: nat)
    requires v < Pow2(n)
    ensures Number(LowBits(v, n)) == v
  {
    if n > 0 {
      NumberOfLowBits(v / 2, n - 1);
      assert LowBits(v, n)[1..] == LowBits(v / 2, n - 1);
    }
  }

  /** Or-ing a value shifted above the occupied bits is addition. */
  lemma {:induction false} OrShifted(a: nat, c: nat, k: nat)
    requires a < Pow2(k)
    ensures BitOr(a, c * Pow2(k)) == a + c * Pow2(k)
  {
    if a != 0 && c != 0 {
      var p := Pow2(k - 1);
      assert c * Pow2(k) == 2 * (c * p);
      OrShifted(a / 2, c, k - 1);
      assert c * Pow2(k) != 0;
    }
  }

  lemma {:induction false} LowBitsConcat(a: nat, c: nat, k: nat, n: nat)
    requires a < Pow2(k)
    ensures LowBits(a + c * Pow2(k), k + n) == LowBits(a, k) + LowBits(c, n)
  {
    if k == 0 {
      assert LowBits(a, k) == [];
    } else {
      var p := Pow2(k - 1);
      var v := a + c * Pow2(k);
      assert v == a + 2 * (c * p);
      assert v / 2 == a / 2 + c * p;
      LowBitsConcat(a / 2, c, k - 1, n);
    }
  }

  lemma MulMonotone(a: nat, b: nat, c: nat, d: nat)
    requires a <= b && c <= d
    ensures a * c <= b * d
  {
    assert a * c <= b * c <= b * d;
  }

  lemma MultipleApart(p: int, d: int)
    requires p > 0
    ensures d >= 1 ==> p * d >= p
    ensures d <= -1 ==> p * d <= -p
  {
    assert p * d == p * (d - 1) + p == p * (d + 1) - p;
    if d >= 1 {
      assert p * (d - 1) >= 0;
    } else if d <= -1 {
      assert p * (d + 1) <= 0;
    }
  }

  lemma ModUnique(x: int, p: int, q: int, r: int)
    requires 0 <= r < p && x == p * q + r
    ensures x % p == r && x / p == q
  {
    var d := x / p - q;
    assert p * d == p * (x / p) - p * q == r - x % p;
    MultipleApart(p, d);
  }

  lemma {:induction false} BytesToBitsConcat(a: seq<Byte>, b: seq<Byte>)
    ensures BytesToBits(a + b) == BytesToBits(a) + BytesToBits(b)
  {
    if a == [] {
      assert a + b == b;
    } else {
      assert (a + b)[1..] == a[1..] + b;
      BytesToBitsConcat(a[1..], b);
    }
  }

  lemma BytesToBitsOne(b: Byte)
    ensures BytesToBits([b]) == LowBits(b, 8)
  {
    assert BytesToBits([b]) == LowBits(b, 8) + BytesToBits([]);
  }

  lemma {:induction false} ReverseConcat(a: seq<bool>, b: seq<bool>)
    ensures Reverse(a + b) == Reverse(b) + Reverse(a)
  {
    if a == [] {
      assert a + b == b;
    } else {
      assert (a + b)[1..] == a[1..] + b;
      ReverseConcat(a[1..], b);
    }
  }

  lemma {:induction false} ReverseReverse(a: seq<bool>)
    ensures Reverse(Reverse(a)) == a
  {
    if a != [] {
      ReverseReverse(a[1..]);
      ReverseConcat(Reverse(a[1..]), [a[0]]);
      assert Reverse([a[0]]) == [a[0]];
    }
  }
}
