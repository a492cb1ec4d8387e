/** The output side of the compressor in src/import/stb_image_write.h: a 32-bit
    bit buffer flushed into a growing byte buffer. */
module BitOutput {
  import opened Bits
  import opened Deflate

  /** The output buffer and the bit buffer in front of it. */
  class Output {
    var bytes: seq<Byte>     // contents of the growing buffer
    var capacity: nat        // its allocated size, 0 before the first push
    var bitbuf: nat          // a 32-bit unsigned word
    var bitcount: nat

    ghost predicate Valid()
      reads this
    {
      && (bytes == [] || |bytes| < capacity)
      && bitcount <= 31
      && bitbuf < Pow2(bitcount)
    }

    /** Everything written so far, bit by bit. */
    ghost function Stream(): seq<bool>
      reads this
    {
      BytesToBits(bytes) + LowBits(bitbuf, bitcount)
    }

    constructor ()
      ensures Valid() && bytes == [] && bitcount == 0 && capacity == 0
    {
      bytes, capacity, bitbuf, bitcount := [], 0, 0, 0;
    }

    /** Appends one byte, growing the buffer when it is one short of full. */
    method Push(v: Byte)
      requires Valid()
      modifies `bytes, `capacity
      ensures Valid() && bytes == old(bytes) + [v] && capacity >= old(capacity)
      ensures old(capacity) == 0 ==> capacity == 2
      ensures old(capacity) > 0 ==>
                capacity == if old(|bytes|) + 1 < old(capacity) then old(capacity) else 2 * old(capacity) + 1
    {
      if capacity == 0 || |bytes| + 1 >= capacity {
        capacity := if capacity == 0 then 2 else 2 * capacity + 1;
      }
      bytes := bytes + [v];
    }

    /** Cuts the contents; the allocation stays. */
    method Truncate(n: nat)
      requires Valid() && n <= |bytes|
      modifies `bytes
      ensures Valid() && bytes == old(bytes)[..n]
    {
      bytes := bytes[..n];
    }

    /** Copies a block into space that is already allocated. */
    method CopyIn(block: seq<Byte>)
      requires Valid() && |bytes| + |block| < capacity
      modifies `bytes
      ensures Valid() && bytes == old(bytes) + block
    {
      bytes := bytes + block;
    }

    /** Moves whole bytes out of the bit buffer. */
    method Flush()
      requires Valid()
      modifies this
      ensures Valid() && bitcount == old(bitcount) % 8
      ensures Stream() == old(Stream())
      ensures old(bytes) <= bytes
    {
      hide BytesToBits, LowBits, Pow2;
      while bitcount >= 8
        invariant Valid() && bitcount % 8 == old(bitcount) % 8
        invariant Stream() == old(Stream())
        invariant old(bytes) <= bytes
        decreases bitcount
      {
        FlushByte(bytes, bitbuf, bitcount);
        Push(bitbuf % 256);
        bitbuf := bitbuf / 256;
        bitcount := bitcount - 8;
      }
    }

    /** Adds the low bits of a code above the bits already held. */
    method Add(code: nat, codebits: nat)
      requires Valid() && bitcount < 8
      requires codebits <= 24 && code < Pow2(codebits)
      modifies this
      ensures Valid() && bitcount == (old(bitcount) + codebits) % 8
      ensures Stream() == old(Stream()) + LowBits(code, codebits)
      ensures old(bytes) <= bytes
    {
      hide BytesToBits, LowBits, Pow2, BitOr;
      AddBits(BytesToBits(bytes), bitbuf, bitcount, code, codebits);
      bitbuf := BitOr(bitbuf, code * Pow2(bitcount) % WORD);
      bitcount := bitcount + codebits;
      Flush();
    }

    /** Adds a Huffman code, most significant bit first. */
    method AddCode(code: nat, codebits: nat)
      requires Valid() && bitcount < 8
      requires codebits <= 24 && code < Pow2(codebits)
      modifies this
      ensures Valid() && bitcount < 8
      ensures Stream() == old(Stream()) + Code(code, codebits)
      ensures old(bytes) <= bytes
    {
      var reversed := BitReverse(code, codebits);
      Add(reversed, codebits);
    }

    /** Adds the fixed Huffman code of a literal/length symbol. */
    method AddSymbol(n: nat)
      requires Valid() && bitcount < 8 && n <= 287
      modifies this
      ensures Valid() && bitcount < 8
      ensures Stream() == old(Stream()) + SymbolBits(n)
      ensures old(bytes) <= bytes
    {
      hide Code;
      PowTable();
      if n <= 143 {
        AddCode(0x30 + n, 8);
      } else if n <= 255 {
        AddCode(0x190 + n - 144, 9);
      } else if n <= 279 {
        AddCode(n - 256, 7);
      } else {
        AddCode(0xc0 + n - 280, 8);
      }
    }

    /** Pads with zero bits to a byte boundary. */
    method Pad()
      requires Valid() && bitcount < 8
      modifies this
      ensures Valid() && bitcount == 0 && bitbuf == 0
      ensures exists zeros: seq<bool> :: && |zeros| < 8 && Stream() == old(Stream()) + zeros
                                         && forall k :: 0 <= k < |zeros| ==> !zeros[k]
      ensures old(bytes) <= bytes
    {
      hide LowBits, BytesToBits;
      ghost var zeros: seq<bool> := [];
      ZeroBit();
      while bitcount != 0
        invariant Valid() && bitcount < 8
        invariant forall k :: 0 <= k < |zeros| ==> !zeros[k]
        invariant |zeros| < 8 && (bitcount != 0 ==> bitcount == old(bitcount) + |zeros|)
        invariant Stream() == old(Stream()) + zeros
        invariant old(bytes) <= bytes
        decreases if bitcount == 0 then 0 else 8 - bitcount
      {
        Assoc(old(Stream()), zeros, [false]);
        Add(0, 1);
        zeros := zeros + [false];
      }
    }
  }

  lemma ZeroBit()
    ensures LowBits(0, 1) == [false] && Pow2(1) == 2
  {
    assert LowBits(0, 0) == [];
  }

  lemma FlushByte(bytes: seq<Byte>, bitbuf: nat, bitcount: nat)
    requires 8 <= bitcount && bitbuf < Pow2(bitcount)
    ensures bitbuf / 256 < Pow2(bitcount - 8)
    ensures BytesToBits(bytes + [bitbuf % 256]) + LowBits(bitbuf / 256, bitcount - 8)
            == BytesToBits(bytes) + LowBits(bitbuf, bitcount)
  {
    hide BytesToBits, LowBits, Pow2;
    assert Pow2(8) == 256 by { PowTable(); }
    Pow2Add(8, bitcount - 8);
    LowBitsConcat(bitbuf % 256, bitbuf / 256, 8, bitcount - 8);
    BytesToBitsConcat(bytes, [bitbuf % 256]);
    BytesToBitsOne(bitbuf % 256);
    Assoc(BytesToBits(bytes), LowBits(bitbuf % 256, 8), LowBits(bitbuf / 256, bitcount - 8));
  }

  lemma Pow2Word()
    ensures Pow2(32) == WORD
  {
    Pow2Add(8, 8);
    Pow2Add(16, 16);
    PowTable();
  }

  lemma ProductFits(a: nat, c: nat, p: nat, q: nat)
    requires a < p && c < q
    ensures a + c * p < p * q
  {
    MulMonotone(c + 1, q, p, p);
    assert (c + 1) * p == c * p + p;
  }

  /** Adding a code to fewer than 8 held bits stays within the 32-bit word. */
  lemma AddFits(bitbuf: nat, bitcount: nat, code: nat, codebits: nat)
    requires bitcount < 8 && bitbuf < Pow2(bitcount)
    requires codebits <= 24 && code < Pow2(codebits)
    ensures code * Pow2(bitcount) < WORD
    ensures BitOr(bitbuf, code * Pow2(bitcount)) == bitbuf + code * Pow2(bitcount) < Pow2(bitcount + codebits)
    ensures LowBits(bitbuf + code * Pow2(bitcount), bitcount + codebits)
            == LowBits(bitbuf, bitcount) + LowBits(code, codebits)
  {
    hide LowBits, BitOr, Pow2;
    OrShifted(bitbuf, code, bitcount);
    LowBitsConcat(bitbuf, code, bitcount, codebits);
    Pow2Add(bitcount, codebits);
    ProductFits(bitbuf, code, Pow2(bitcount), Pow2(codebits));
    Pow2Monotone(bitcount + codebits, 32);
    Pow2Word();
  }

  /** The new word and what it holds. */
  lemma AddBits(before: seq<bool>, bitbuf: nat, bitcount: nat, code: nat, codebits: nat)
    requires bitcount < 8 && bitbuf < Pow2(bitcount)
    requires codebits <= 24 && code < Pow2(codebits)
    ensures var word := BitOr(bitbuf, code * Pow2(bitcount) % WORD);
            && word < Pow2(bitcount + codebits)
            && before + LowBits(word, bitcount + codebits)
               == before + LowBits(bitbuf, bitcount) + LowBits(code, codebits)
  {
    hide LowBits, BitOr, Pow2;
    AddFits(bitbuf, bitcount, code, codebits);
    Assoc(before, LowBits(bitbuf, bitcount), LowBits(code, codebits));
  }

  lemma {:induction false} LowBitsSnoc(v: nat, n: nat)
    ensures LowBits(v, n + 1) == LowBits(v, n) + [v / Pow2(n) % 2 == 1]
  {
    if n == 0 {
      assert LowBits(v, 1) == [v % 2 == 1] + LowBits(v / 2, 0);
    } else {
      LowBitsSnoc(v / 2, n - 1);
      HalfDiv(v, Pow2(n - 1));
    }
  }

  lemma HalfDiv(v: nat, p: nat)
    requires p > 0
    ensures v / 2 / p == v / (2 * p)
  {
    var q, r := v / 2 / p, v / 2 % p;
    assert v == 2 * (p * q + r) + v % 2;
    assert 2 * p * q == 2 * (p * q);
    ModUnique(v, 2 * p, q, 2 * r + v % 2);
  }

  /** One round of the reversal: the next higher bit moves to the front. */
  lemma ReverseStep(code: nat, k: nat, res: nat)
    requires LowBits(res, k) == Code(code, k)
    ensures var bit := code / Pow2(k) % 2;
            BitOr(2 * res, bit) == 2 * res + bit && LowBits(2 * res + bit, k + 1) == Code(code, k + 1)
  {
    var bit := code / Pow2(k) % 2;
    hide Pow2, LowBits, Code, BitOr;
    OrLowBit(res, bit);
    LowBitsCons(res, bit, k);
    CodeCons(code, k);
  }

  lemma OrLowBit(res: nat, bit: nat)
    requires bit < 2
    ensures BitOr(2 * res, bit) == 2 * res + bit
  {
    assert BitOr(2 * res, 0) == 2 * res && BitOr(res, 0) == res;
    assert (2 * res) / 2 == res && bit / 2 == 0;
  }

  lemma LowBitsCons(res: nat, bit: nat, k: nat)
    requires bit < 2
    ensures LowBits(2 * res + bit, k + 1) == [bit == 1] + LowBits(res, k)
  {
    assert (2 * res + bit) / 2 == res && (2 * res + bit) % 2 == bit;
  }

  lemma CodeCons(code: nat, k: nat)
    ensures Code(code, k + 1) == [code / Pow2(k) % 2 == 1] + Code(code, k)
  {
    hide Pow2, LowBits;
    LowBitsSnoc(code, k);
    var bit := [code / Pow2(k) % 2 == 1];
    ReverseConcat(LowBits(code, k), bit);
    assert Reverse(bit) == bit;
  }

  /** Reverses the order of the low bits of a code. */
  method BitReverse(code: nat, codebits: nat) returns (res: nat)
    ensures LowBits(res, codebits) == Code(code, codebits)
    ensures res < Pow2(codebits)
  {
    hide LowBits, Code, BitOr;
    res := 0;
    var rest, left := code, codebits;
    assert LowBits(0, 0) == Code(code, 0) by { BitsOfNothing(code); }
    while left != 0
      invariant 0 <= left <= codebits
      invariant rest == code / Pow2(codebits - left)
      invariant res < Pow2(codebits - left)
      invariant LowBits(res, codebits - left) == Code(code, codebits - left)
    {
      ghost var k := codebits - left;
      ReverseStep(code, k, res);
      HalfDivOther(code, Pow2(k));
      res := BitOr(2 * res, rest % 2);
      rest := rest / 2;
      left := left - 1;
    }
  }

  lemma BitsOfNothing(code: nat)
    ensures LowBits(0, 0) == Code(code, 0)
  {
  }

  lemma RegroupProduct(p: nat, q: nat, r: nat)
    ensures p * (2 * q + r) == 2 * p * q + p * r
  {
  }

  lemma HalfDivOther(v: nat, p: nat)
    requires p > 0
    ensures v / p / 2 == v / (2 * p)
  {
    var q, r, low := v / p / 2, v / p % 2, v % p;
    assert v == p * (2 * q + r) + low by {
      assert v / p == 2 * q + r;
    }
    RegroupProduct(p, q, r);
    assert r == 0 || r == 1;
    assert p * r + low < 2 * p;
    ModUnique(v, 2 * p, q, p * r + low);
  }
}
