/** The Adler-32 checksum: its per-byte definition (section 8.2 of RFC 1950)
    and the deferred-modulo loop of src/import/stb_image_write.h. */
module Adler32 {
  import opened Bits

  const BASE := 65521
  const BLOCK := 5552

  datatype Sums = Sums(s1: nat, s2: nat)

  /** Both sums, reduced after every byte. */
  function Adler(data: seq<Byte>): (r: Sums)
    ensures r.s1 < BASE && r.s2 < BASE
  {
    if data == [] then Sums(1, 0) else
    var before := Adler(data[..|data| - 1]);
    var s1 := (before.s1 + data[|data| - 1]) % BASE;
    Sums(s1, (before.s2 + s1) % BASE)
  }

  /** The checksum as the four big-endian bytes that end a zlib stream. */
  function Trailer(data: seq<Byte>): (bytes: seq<Byte>)
    ensures |bytes| == 4
  {
    var a := Adler(data);
    [a.s2 / 256, a.s2 % 256, a.s1 / 256, a.s1 % 256]
  }

  function Sum(data: seq<Byte>): nat {
    if data == [] then 0 else Sum(data[..|data| - 1]) + data[|data| - 1]
  }

  /** Each byte counted once for every byte from it to the end. */
  function Weighted(data: seq<Byte>): nat {
    if data == [] then 0 else Weighted(data[..|data| - 1]) + Sum(data)
  }

  /** Without reductions: one more than the sum of the bytes, and the sum of these sums. */
  lemma {:induction false} AdlerMeans(data: seq<Byte>)
    ensures Adler(data) == Sums((1 + Sum(data)) % 65521, (|data| + Weighted(data)) % 65521)
  {
    if data != [] {
      var n := |data| - 1;
      AdlerMeans(data[..n]);
      AddMod(1 + Sum(data[..n]), data[n]);
      AddMod(n + Weighted(data[..n]), 1 + Sum(data));
      AddModRight((n + Weighted(data[..n])) % BASE, 1 + Sum(data));
    }
  }

  lemma AddModRight(x: nat, y: nat)
    ensures (x + y % BASE) % BASE == (x + y) % BASE
  {
    AddMod(y, x);
  }

  /** The trailer is the checksum s2 * 65536 + s1, the most significant byte first. */
  lemma TrailerMeans(data: seq<Byte>)
    ensures var t, a := Trailer(data), Adler(data);
            (t[0] as int) * 0x100_0000 + (t[1] as int) * 0x1_0000 + (t[2] as int) * 0x100 + t[3]
            == a.s2 * 0x1_0000 + a.s1
  {
  }

  lemma ShiftMod(x: nat, k: nat)
    ensures (x + k * BASE) % BASE == x % BASE
  {
  }

  lemma AddMod(x: nat, y: nat)
    ensures (x + y) % BASE == (x % BASE + y) % BASE
  {
    ShiftMod(x % BASE + y, x / BASE);
  }

  function Triangle(n: nat): nat {
    if n == 0 then 0 else Triangle(n - 1) + n
  }

  lemma {:induction false} TriangleIs(n: nat)
    ensures 2 * Triangle(n) == n * (n + 1)
  {
    if n > 0 {
      TriangleIs(n - 1);
    }
  }

  lemma {:induction false} TriangleMonotone(m: nat, n: nat)
    requires m <= n
    ensures Triangle(m) <= Triangle(n)
  {
    if m < n {
      TriangleMonotone(m, n - 1);
    }
  }

  /** Upper bounds of the unreduced sums after n bytes of one block. */
  predicate Bounded(s1: nat, s2: nat, n: nat) {
    s1 <= 65520 + 255 * n && s2 <= 65520 * (n + 1) + 255 * Triangle(n)
  }

  /** The sums stay below 2^32 for a whole block, although they are reduced
      only at its end. */
  lemma BoundedFits(s1: nat, s2: nat, n: nat)
    requires n <= BLOCK && Bounded(s1, s2, n)
    ensures s1 < WORD && s2 < WORD
  {
    TriangleMonotone(n, BLOCK);
    TriangleIs(BLOCK);
  }

  lemma BoundedStep(s1: nat, s2: nat, n: nat, b: Byte)
    requires Bounded(s1, s2, n)
    ensures Bounded(s1 + b, s2 + s1 + b, n + 1)
  {
  }

  /** Reducing the sums later does not change their residues. */
  lemma AdlerStep(data: seq<Byte>, k: nat, s1: nat, s2: nat)
    requires k < |data| && Sums(s1 % BASE, s2 % BASE) == Adler(data[..k])
    ensures Sums((s1 + data[k]) % BASE, (s2 + s1 + data[k]) % BASE) == Adler(data[..k + 1])
  {
    hide Adler;
    AdlerSnoc(data, k);
    AddMod(s1, data[k]);
    AddMod(s2, s1 + data[k]);
    AddMod(s1 + data[k], s2 % BASE);
  }

  lemma AdlerSnoc(data: seq<Byte>, k: nat)
    requires k < |data|
    ensures var before, after := Adler(data[..k]), Adler(data[..k + 1]);
            after.s1 == (before.s1 + data[k]) % BASE && after.s2 == (before.s2 + after.s1) % BASE
  {
    assert data[..k + 1][..k] == data[..k];
  }

  /** The state of the inner loop after i bytes of the block at j. */
  predicate InBlock(data: seq<Byte>, j: nat, i: nat, s1: nat, s2: nat)
    requires j + i <= |data|
  {
    Bounded(s1, s2, i) && Sums(s1 % BASE, s2 % BASE) == Adler(data[..j + i])
  }

  lemma InBlockStep(data: seq<Byte>, j: nat, i: nat, s1: nat, s2: nat)
    requires j + i < |data| && i < BLOCK && InBlock(data, j, i, s1, s2)
    ensures s1 + data[j + i] < WORD && s2 + s1 + data[j + i] < WORD
    ensures InBlock(data, j, i + 1, s1 + data[j + i], s2 + s1 + data[j + i])
  {
    AdlerStep(data, j + i, s1, s2);
    assert data[..j + (i + 1)] == data[..j + i + 1];
    BoundedStep(s1, s2, i, data[j + i]);
    BoundedFits(s1 + data[j + i], s2 + s1 + data[j + i], i + 1);
  }

  function Wrap(x: nat): (r: nat)
    ensures r < WORD && (x < WORD ==> r == x)
  {
    x % WORD
  }

  /** The inner loop: one block, both sums in 32-bit unsigned variables. */
  method AddBlock(data: seq<Byte>, j: nat, blockLen: nat, s1: nat, s2: nat) returns (t1: nat, t2: nat)
    requires j + blockLen <= |data| && blockLen <= BLOCK
    requires InBlock(data, j, 0, s1, s2)
    ensures InBlock(data, j, blockLen, t1, t2)
  {
    t1, t2 := s1, s2;
    var i := 0;
    while i < blockLen
      invariant 0 <= i <= blockLen
      invariant InBlock(data, j, i, t1, t2)
    {
      InBlockStep(data, j, i, t1, t2);
      t1 := Wrap(t1 + data[j + i]);
      t2 := Wrap(t2 + t1);
      i := i + 1;
    }
  }

  /** The checksum loop: a first block of |data| mod 5552 bytes, then full ones. */
  method Checksum(data: seq<Byte>) returns (s1: nat, s2: nat)
    ensures Sums(s1, s2) == Adler(data)
  {
    s1, s2 := 1, 0;
    assert Sums(s1, s2) == Adler(data[..0]);
    hide Adler, Bounded;
    var j := 0;
    var blockLen := |data| % BLOCK;
    ghost var full, first := |data| / BLOCK, true;
    while j < |data|
      invariant 0 <= j <= |data|
      invariant if first then j == 0 && blockLen == |data| % BLOCK else blockLen == BLOCK
      invariant full >= 0 && |data| - j == full * BLOCK + if first then |data| % BLOCK else 0
      invariant Sums(s1, s2) == Adler(data[..j])
      decreases |data| - j, first
    {
      StartBlock(data, j, s1, s2);
      s1, s2 := AddBlock(data, j, blockLen, s1, s2);
      s1, s2 := s1 % BASE, s2 % BASE;
      j := j + blockLen;
      blockLen := BLOCK;
      if first {
        first := false;
      } else {
        full := full - 1;
      }
    }
    assert data[..j] == data;
  }

  lemma StartBlock(data: seq<Byte>, j: nat, s1: nat, s2: nat)
    requires j <= |data| && Sums(s1, s2) == Adler(data[..j])
    ensures InBlock(data, j, 0, s1, s2) && s1 < BASE && s2 < BASE
  {
    assert data[..j + 0] == data[..j];
  }
}
